/**
 * The `votes` table behind the Sequelize model `Vote`: rows with an
 * auto-increment id, name, email, country and creation time, a unique index
 * on email, and the model's column validators.  The storage engine is
 * reduced to the statements the core issues: look up by email, insert one
 * row, insert many rows in one statement, count, truncate, and delete or
 * count by a predicate on the email column.
 */
module VoteModel {
  import opened Wrappers
  import opened Collections
  import opened Ranking
  import opened Text

  /** The attributes a caller supplies when creating a row (`CreateVoteDto`). */
  datatype Ballot = Ballot(name: string, email: string, country: string)

  datatype Vote = Vote(id: nat, name: string, email: string, country: string, createdAt: int)

  function BallotOf(v: Vote): Ballot
  {
    Ballot(v.name, v.email, v.country)
  }

  function Ballots(rows: seq<Vote>): (bs: seq<Ballot>)
    ensures |bs| == |rows|
    ensures forall i :: 0 <= i < |rows| ==> bs[i] == BallotOf(rows[i])
  {
    seq(|rows|, i requires 0 <= i < |rows| => BallotOf(rows[i]))
  }

  function Emails(rows: seq<Vote>): (es: seq<string>)
    ensures |es| == |rows|
    ensures forall i :: 0 <= i < |rows| ==> es[i] == rows[i].email
  {
    seq(|rows|, i requires 0 <= i < |rows| => rows[i].email)
  }

  function BallotEmails(bs: seq<Ballot>): (es: seq<string>)
    ensures |es| == |bs|
    ensures forall i :: 0 <= i < |bs| ==> es[i] == bs[i].email
  {
    seq(|bs|, i requires 0 <= i < |bs| => bs[i].email)
  }

  /** The `country` column, which the grouped query reads. */
  function CountryColumn(rows: seq<Vote>): (cs: seq<string>)
    ensures |cs| == |rows|
    ensures forall i :: 0 <= i < |rows| ==> cs[i] == rows[i].country
  {
    seq(|rows|, i requires 0 <= i < |rows| => rows[i].country)
  }

  function Ids(rows: seq<Vote>): (ids: seq<nat>)
    ensures |ids| == |rows|
    ensures forall i :: 0 <= i < |rows| ==> ids[i] == rows[i].id
  {
    seq(|rows|, i requires 0 <= i < |rows| => rows[i].id)
  }

  /**
   * The validators declared on the model: name and email not empty, email
   * accepted by the email check, country not empty and of length 2 to 3.
   * `notEmpty` also rejects a value made only of whitespace. The email
   * check is validator.js `isEmail`, passed in as `isEmail`.
   */
  predicate PassesModelValidation(b: Ballot, isEmail: string -> bool)
  {
    && !Blank(b.name)
    && !Blank(b.email) && isEmail(b.email)
    && !Blank(b.country) && 2 <= |b.country| <= 3
  }

  /** The rows `bs` would get as ids `first`, `first + 1`, ... at time `now`. */
  function NewRows(bs: seq<Ballot>, first: nat, now: int): (rows: seq<Vote>)
    ensures |rows| == |bs|
    ensures forall i :: 0 <= i < |bs| ==>
              rows[i] == Vote(first + i, bs[i].name, bs[i].email, bs[i].country, now)
  {
    seq(|bs|, i requires 0 <= i < |bs| => Vote(first + i, bs[i].name, bs[i].email, bs[i].country, now))
  }

  /** Rows whose email `matches` are dropped, the others kept in order. */
  function WithoutMatching(rows: seq<Vote>, matches: string -> bool): (r: seq<Vote>)
    ensures |r| <= |rows|
    ensures forall v :: v in r <==> v in rows && !matches(v.email)
  {
    if rows == [] then []
    else
      var rest := WithoutMatching(rows[1..], matches);
      assert rows == [rows[0]] + rows[1..];
      if matches(rows[0].email) then rest else [rows[0]] + rest
  }

  /** Number of rows whose email `matches` (`COUNT(*) ... WHERE email LIKE ...`). */
  function CountMatching(rows: seq<Vote>, matches: string -> bool): (n: nat)
    ensures n <= |rows|
    ensures n + |WithoutMatching(rows, matches)| == |rows|
  {
    if rows == [] then 0
    else CountMatching(rows[1..], matches) + (if matches(rows[0].email) then 1 else 0)
  }

  datatype InsertOutcome =
    | Inserted(row: Vote)
    | ValidationFailed      // SequelizeValidationError
    | UniqueViolation       // SequelizeUniqueConstraintError on the email index

  class VoteTable {
    var rows: seq<Vote>
    /** The next auto-increment id; ids are never reused. */
    var nextId: nat

    ghost predicate Valid()
      reads this
    {
      && Distinct(Emails(rows))
      && (forall i :: 0 <= i < |rows| ==> rows[i].id < nextId)
      && Distinct(Ids(rows))
    }

    constructor ()
      ensures Valid() && rows == []
    {
      rows := [];
      nextId := 1;
    }

    /** `Vote.findOne({ where: { email } })`: an exact, case-sensitive match. */
    method FindByEmail(email: string) returns (found: Option<Vote>)
      ensures found.Some? <==> email in Emails(rows)
      ensures found.Some? ==> found.value in rows && found.value.email == email
    {
      if email in Emails(rows) {
        var i :| 0 <= i < |rows| && Emails(rows)[i] == email;
        found := Some(rows[i]);
      } else {
        found := None;
      }
    }

    /**
     * `Vote.create(b)`: the model validators run first, then the INSERT,
     * which the unique index on email refuses when the email is already stored.
     */
    method Insert(b: Ballot, isEmail: string -> bool, now: int) returns (outcome: InsertOutcome)
      requires Valid()
      modifies this
      ensures Valid()
      ensures !PassesModelValidation(b, isEmail) ==> outcome == ValidationFailed
      ensures PassesModelValidation(b, isEmail) && b.email in Emails(old(rows)) ==> outcome == UniqueViolation
      ensures PassesModelValidation(b, isEmail) && b.email !in Emails(old(rows)) ==>
                && outcome == Inserted(Vote(old(nextId), b.name, b.email, b.country, now))
                && outcome.row.id !in Ids(old(rows))
      ensures outcome.Inserted? ==> rows == old(rows) + [outcome.row] && nextId == old(nextId) + 1
      ensures !outcome.Inserted? ==> rows == old(rows) && nextId == old(nextId)
    {
      if !PassesModelValidation(b, isEmail) {
        outcome := ValidationFailed;
      } else if b.email in Emails(rows) {
        outcome := UniqueViolation;
      } else {
        var v := Vote(nextId, b.name, b.email, b.country, now);
        assert Emails(rows + [v]) == Emails(rows) + [v.email];
        assert Ids(rows + [v]) == Ids(rows) + [v.id];
        rows := rows + [v];
        nextId := nextId + 1;
        outcome := Inserted(v);
      }
    }

    /**
     * `Vote.bulkCreate(bs, { validate })`: one multi-row INSERT.  Either every
     * row goes in or, when a validator (if asked for) or the unique index
     * refuses any row, none does.
     */
    method BulkInsert(bs: seq<Ballot>, validate: bool, isEmail: string -> bool, now: int) returns (ok: bool)
      requires Valid()
      modifies this
      ensures Valid()
      ensures ok <==>
                && (validate ==> forall i :: 0 <= i < |bs| ==> PassesModelValidation(bs[i], isEmail))
                && Distinct(BallotEmails(bs))
                && (forall i :: 0 <= i < |bs| ==> bs[i].email !in Emails(old(rows)))
      ensures ok ==> rows == old(rows) + NewRows(bs, old(nextId), now) && nextId == old(nextId) + |bs|
      ensures !ok ==> rows == old(rows) && nextId == old(nextId)
    {
      ok := (validate ==> forall i :: 0 <= i < |bs| ==> PassesModelValidation(bs[i], isEmail))
            && Distinct(BallotEmails(bs))
            && (forall i :: 0 <= i < |bs| ==> bs[i].email !in Emails(rows));
      if ok {
        var added := NewRows(bs, nextId, now);
        var all := rows + added;
        forall i, j | 0 <= i < j < |all| ensures Emails(all)[i] != Emails(all)[j] {
          if j >= |rows| {
            assert all[j] == added[j - |rows|];
            if i >= |rows| {
              assert all[i] == added[i - |rows|];
              assert BallotEmails(bs)[i - |rows|] != BallotEmails(bs)[j - |rows|];
            } else {
              assert Emails(rows)[i] == all[i].email;
            }
          }
        }
        forall i, j | 0 <= i < j < |all| ensures Ids(all)[i] != Ids(all)[j] {
          if j >= |rows| {
            assert all[j] == added[j - |rows|];
            if i >= |rows| {
              assert all[i] == added[i - |rows|];
            }
          }
        }
        rows := all;
        nextId := nextId + |bs|;
      }
    }

    /** `Vote.count()`. */
    function Count(): nat
      reads this
    {
      |rows|
    }

    /** `Vote.destroy({ where: {}, truncate: true })`. */
    method Truncate()
      requires Valid()
      modifies this
      ensures Valid() && rows == [] && nextId == old(nextId)
    {
      rows := [];
    }

    /** `Vote.destroy({ where: { email: <pattern> } })`; returns the number deleted. */
    method DestroyByEmail(matches: string -> bool) returns (deleted: nat)
      requires Valid()
      modifies this
      ensures Valid() && nextId == old(nextId)
      ensures rows == WithoutMatching(old(rows), matches)
      ensures deleted == CountMatching(old(rows), matches)
    {
      deleted := CountMatching(rows, matches);
      var kept := WithoutMatching(rows, matches);
      KeptRowsStayDistinct(rows, matches);
      rows := kept;
    }
  }

  /** Deleting rows keeps emails and ids pairwise distinct and ids below the counter. */
  lemma {:induction false} KeptRowsStayDistinct(rows: seq<Vote>, matches: string -> bool)
    requires Distinct(Emails(rows)) && Distinct(Ids(rows))
    ensures Distinct(Emails(WithoutMatching(rows, matches)))
    ensures Distinct(Ids(WithoutMatching(rows, matches)))
  {
    if rows != [] {
      assert Emails(rows[1..]) == Emails(rows)[1..];
      assert Ids(rows[1..]) == Ids(rows)[1..];
      KeptRowsStayDistinct(rows[1..], matches);
      if !matches(rows[0].email) {
        HeadStaysDistinct(rows, WithoutMatching(rows[1..], matches));
      }
    }
  }

  /** The first row differs in email and id from any selection of the later rows. */
  lemma HeadStaysDistinct(rows: seq<Vote>, rest: seq<Vote>)
    requires rows != [] && Distinct(Emails(rows)) && Distinct(Ids(rows))
    requires forall v :: v in rest ==> v in rows[1..]
    requires Distinct(Emails(rest)) && Distinct(Ids(rest))
    ensures Distinct(Emails([rows[0]] + rest)) && Distinct(Ids([rows[0]] + rest))
  {
    var r := [rows[0]] + rest;
    forall j | 1 <= j < |r| ensures r[0].email != r[j].email && r[0].id != r[j].id {
      assert r[j] in rows[1..];
      var k :| 0 <= k < |rows[1..]| && rows[1..][k] == r[j];
      assert Emails(rows)[0] != Emails(rows)[k + 1];
      assert Ids(rows)[0] != Ids(rows)[k + 1];
    }
    forall i, j | 0 <= i < j < |r| ensures Emails(r)[i] != Emails(r)[j] {
      if i > 0 {
        assert Emails(r)[i] == Emails(rest)[i - 1] && Emails(r)[j] == Emails(rest)[j - 1];
      }
    }
    forall i, j | 0 <= i < j < |r| ensures Ids(r)[i] != Ids(r)[j] {
      if i > 0 {
        assert Ids(r)[i] == Ids(rest)[i - 1] && Ids(r)[j] == Ids(rest)[j - 1];
      }
    }
  }
}
