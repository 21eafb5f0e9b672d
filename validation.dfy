/**
 * The request-body rule chain `validateVote` that guards `POST /votes`.
 * There are two copies of it that differ only in where the messages come
 * from: one spells them out, the other reads them from a `MESSAGES` table,
 * so that copy is modelled with the messages as a parameter.  Each field is
 * trimmed, then every validator of its chain runs (none of them bails out),
 * and every failing one adds its own error; the sanitisers after the
 * validators only shape the body handed on.  Any error answers 400 with all
 * the errors, in chain order: name, email, country.
 *
 * The email checks are validator.js `isEmail` and `normalizeEmail`,
 * passed in as `isEmail` and `normalizeEmail`.  A missing field reads as
 * the empty string, as express-validator's `toString` makes it.
 */
module Validation {
  import opened Wrappers
  import opened Text
  import opened VoteModel
  import opened VoteService

  const BadRequest: int := 400

  datatype FieldError = FieldError(field: string, message: string)

  /** The validators of the chain, in the order they run. */
  datatype Rule =
    | NameRequired | NameLength
    | EmailRequired | InvalidEmail
    | CountryRequired | CountryLength | CountryFormat

  function Position(r: Rule): nat
  {
    match r
    case NameRequired => 0
    case NameLength => 1
    case EmailRequired => 2
    case InvalidEmail => 3
    case CountryRequired => 4
    case CountryLength => 5
    case CountryFormat => 6
  }

  function FieldOf(r: Rule): string
  {
    if Position(r) <= 1 then "name" else if Position(r) <= 3 then "email" else "country"
  }

  datatype Messages = Messages(nameRequired: string, nameLength: string, emailRequired: string,
                               invalidEmail: string, countryRequired: string, countryLength: string,
                               countryFormat: string)

  function MessageOf(r: Rule, msgs: Messages): string
  {
    match r
    case NameRequired => msgs.nameRequired
    case NameLength => msgs.nameLength
    case EmailRequired => msgs.emailRequired
    case InvalidEmail => msgs.invalidEmail
    case CountryRequired => msgs.countryRequired
    case CountryLength => msgs.countryLength
    case CountryFormat => msgs.countryFormat
  }

  /** The messages of the copy that spells them out. */
  const LiteralMessages := Messages("Name is required", "Name must be between 2 and 100 characters",
                                    "Email is required", "Invalid email format", "Country code is required",
                                    "Country code must be 2-3 characters", "Country code must contain only letters")

  /** The JSON body: each field present as a string or absent. */
  datatype Body = Body(name: Option<string>, email: Option<string>, country: Option<string>)

  /** What the middleware does: answer 400 with the errors, or hand the sanitised body on to the controller. */
  datatype Gate = Rejected(status: int, success: bool, errors: seq<FieldError>) | Proceed(data: Ballot)

  function FieldText(v: Option<string>): string
  {
    match v case Some(s) => s case None => ""
  }

  predicate AcceptableName(name: string) { 2 <= |name| <= 100 }
  predicate AcceptableCountry(country: string) { 2 <= |country| <= 3 && IsAlpha(country) }

  predicate RunsInOrder(fs: seq<Rule>)
  {
    forall i, j :: 0 <= i < j < |fs| ==> Position(fs[i]) < Position(fs[j])
  }

  function When(c: bool, r: Rule): seq<Rule>
  {
    if c then [r] else []
  }

  /** The failing validators of the name chain. */
  function NameFailures(name: string): (fs: seq<Rule>)
    ensures RunsInOrder(fs) && forall r :: r in fs ==> Position(r) <= 1
    ensures fs == [] <==> AcceptableName(name)
  {
    When(name == "", NameRequired) + When(!AcceptableName(name), NameLength)
  }

  /** The failing validators of the email chain. */
  function EmailFailures(email: string, isEmail: string -> bool): (fs: seq<Rule>)
    ensures RunsInOrder(fs) && forall r :: r in fs ==> 2 <= Position(r) <= 3
    ensures fs == [] <==> email != "" && isEmail(email)
  {
    When(email == "", EmailRequired) + When(!isEmail(email), InvalidEmail)
  }

  /** The failing validators of the country chain. */
  function CountryFailures(country: string): (fs: seq<Rule>)
    ensures RunsInOrder(fs) && forall r :: r in fs ==> 4 <= Position(r)
    ensures fs == [] <==> AcceptableCountry(country)
  {
    When(country == "", CountryRequired) + When(!(2 <= |country| <= 3), CountryLength) +
    When(!IsAlpha(country), CountryFormat)
  }

  /** The failing validators for the trimmed fields, in the order they run. */
  function Failures(name: string, email: string, country: string, isEmail: string -> bool): (fs: seq<Rule>)
    ensures fs == [] <==>
              AcceptableName(name) && email != "" && isEmail(email) && AcceptableCountry(country)
  {
    NameFailures(name) + EmailFailures(email, isEmail) + CountryFailures(country)
  }

  /** `errors.array().map(...)`: one `{ field, message }` per failing validator. */
  function Report(fs: seq<Rule>, msgs: Messages): (es: seq<FieldError>)
    ensures |es| == |fs|
    ensures forall i :: 0 <= i < |fs| ==> es[i] == FieldError(FieldOf(fs[i]), MessageOf(fs[i], msgs))
  {
    seq(|fs|, i requires 0 <= i < |fs| => FieldError(FieldOf(fs[i]), MessageOf(fs[i], msgs)))
  }

  function TrimmedFailures(body: Body, isEmail: string -> bool): seq<Rule>
  {
    Failures(Trim(FieldText(body.name)), Trim(FieldText(body.email)), Trim(FieldText(body.country)), isEmail)
  }

  /** The `validateVote` chain with messages `msgs`. */
  function ValidateVote(msgs: Messages, body: Body, isEmail: string -> bool, normalizeEmail: string -> string): (g: Gate)
    ensures g.Rejected? <==> TrimmedFailures(body, isEmail) != []
    ensures g.Rejected? ==> g == Rejected(BadRequest, false, Report(TrimmedFailures(body, isEmail), msgs))
    ensures g.Proceed? ==>
              g.data == Ballot(Trim(FieldText(body.name)), normalizeEmail(Trim(FieldText(body.email))),
                               Upper(Trim(FieldText(body.country))))
  {
    var fs := TrimmedFailures(body, isEmail);
    if fs == [] then
      Proceed(Ballot(Trim(FieldText(body.name)), normalizeEmail(Trim(FieldText(body.email))),
                     Upper(Trim(FieldText(body.country)))))
    else Rejected(BadRequest, false, Report(fs, msgs))
  }

  /**
   * The copy with its messages written out: a missing or blank field is
   * reported with its "... is required" text, whatever else fails.
   */
  function ValidateVoteLiteral(body: Body, isEmail: string -> bool, normalizeEmail: string -> string): (g: Gate)
    ensures Trim(FieldText(body.name)) == "" ==>
              g.Rejected? && FieldError("name", "Name is required") in g.errors
    ensures Trim(FieldText(body.email)) == "" ==>
              g.Rejected? && FieldError("email", "Email is required") in g.errors
    ensures Trim(FieldText(body.country)) == "" ==>
              g.Rejected? && FieldError("country", "Country code is required") in g.errors
  {
    RequiredReported(Trim(FieldText(body.name)), Trim(FieldText(body.email)), Trim(FieldText(body.country)),
                     isEmail, LiteralMessages);
    ValidateVote(LiteralMessages, body, isEmail, normalizeEmail)
  }

  /** An empty field is reported with its "required" message, whatever the other fields hold. */
  lemma RequiredReported(name: string, email: string, country: string, isEmail: string -> bool, msgs: Messages)
    ensures var es := Report(Failures(name, email, country, isEmail), msgs);
            && (name == "" ==> FieldError("name", msgs.nameRequired) in es)
            && (email == "" ==> FieldError("email", msgs.emailRequired) in es)
            && (country == "" ==> FieldError("country", msgs.countryRequired) in es)
  {
    var n, e, c := NameFailures(name), EmailFailures(email, isEmail), CountryFailures(country);
    var fs := Failures(name, email, country, isEmail);
    assert fs == n + e + c;
    if name == "" {
      assert n[0] == NameRequired;
      assert fs[0] == NameRequired;
      RuleReported(fs, NameRequired, msgs);
    }
    if email == "" {
      assert e[0] == EmailRequired;
      assert fs[|n|] == EmailRequired;
      RuleReported(fs, EmailRequired, msgs);
    }
    if country == "" {
      assert c[0] == CountryRequired;
      assert fs[|n| + |e|] == CountryRequired;
      RuleReported(fs, CountryRequired, msgs);
    }
  }

  /** A failing validator is reported with its field and message. */
  lemma RuleReported(fs: seq<Rule>, r: Rule, msgs: Messages)
    requires r in fs
    ensures FieldError(FieldOf(r), MessageOf(r, msgs)) in Report(fs, msgs)
  {
    var i :| 0 <= i < |fs| && fs[i] == r;
    assert Report(fs, msgs)[i] == FieldError(FieldOf(r), MessageOf(r, msgs));
  }

  /** A body passes exactly when the trimmed fields meet every rule. */
  lemma PassesIffAllRulesHold(msgs: Messages, body: Body, isEmail: string -> bool, normalizeEmail: string -> string)
    ensures ValidateVote(msgs, body, isEmail, normalizeEmail).Proceed? <==>
              && AcceptableName(Trim(FieldText(body.name)))
              && Trim(FieldText(body.email)) != "" && isEmail(Trim(FieldText(body.email)))
              && AcceptableCountry(Trim(FieldText(body.country)))
  {
  }

  /**
   * What the controller receives: the trimmed name, the normalised trimmed
   * email, and the trimmed country code upper-cased, which is two or three
   * upper-case letters.
   */
  lemma ProceedShape(msgs: Messages, body: Body, isEmail: string -> bool, normalizeEmail: string -> string)
    requires ValidateVote(msgs, body, isEmail, normalizeEmail).Proceed?
    ensures var d := ValidateVote(msgs, body, isEmail, normalizeEmail).data;
            && d.name == Trim(FieldText(body.name)) && Trim(d.name) == d.name
            && AcceptableName(d.name)
            && d.email == normalizeEmail(Trim(FieldText(body.email)))
            && d.country == Upper(Trim(FieldText(body.country)))
            && 2 <= |d.country| <= 3
            && (forall i :: 0 <= i < |d.country| ==> IsUpperLetter(d.country[i]))
  {
    TrimIdempotent(FieldText(body.name));
    var country := Trim(FieldText(body.country));
    forall i | 0 <= i < |country| ensures IsUpperLetter(Upper(country)[i]) {
      assert IsLetter(country[i]);
    }
  }

  /**
   * A lower-case code padded with whitespace, such as `"  us  "` (see
   * `PaddedUsTrimmed`), reaches the controller as `"US"`.
   */
  lemma PaddedCountryIsSanitised(msgs: Messages, name: string, email: string, country: string,
                                 isEmail: string -> bool, normalizeEmail: string -> string)
    requires AcceptableName(Trim(name))
    requires Trim(email) != "" && isEmail(Trim(email))
    requires Trim(country) == "us"
    ensures var g := ValidateVote(msgs, Body(Some(name), Some(email), Some(country)), isEmail, normalizeEmail);
            g.Proceed? && g.data.country == "US"
  {
    var body := Body(Some(name), Some(email), Some(country));
    assert FieldText(body.name) == name && FieldText(body.email) == email && FieldText(body.country) == country;
    UsIsAcceptable();
    assert AcceptableCountry(Trim(FieldText(body.country)));
    PassesIffAllRulesHold(msgs, body, isEmail, normalizeEmail);
    var g := ValidateVote(msgs, body, isEmail, normalizeEmail);
    assert g.Proceed?;
    assert g.data.country == Upper(Trim(FieldText(body.country)));
  }

  lemma UsIsAcceptable()
    ensures AcceptableCountry("us") && Upper("us") == "US"
  {
    assert IsLetter('u') && IsLetter('s');
  }

  /** `"  us  "` trims to `"us"`. */
  lemma PaddedUsTrimmed()
    ensures Trim("  us  ") == "us"
  {
    assert "  " + "us  " == "  us  ";
    TrimStartAfterSpaces("  ", "us  ");
    assert "us" + "  " == "us  ";
    TrimEndBeforeSpaces("us", "  ");
  }

  lemma {:induction false} ConcatRunsInOrder(a: seq<Rule>, b: seq<Rule>)
    requires RunsInOrder(a) && RunsInOrder(b)
    requires forall x, y :: x in a && y in b ==> Position(x) < Position(y)
    ensures RunsInOrder(a + b)
  {
    forall i, j | 0 <= i < j < |a + b| ensures Position((a + b)[i]) < Position((a + b)[j]) {
      if j < |a| {
        assert (a + b)[i] == a[i] && (a + b)[j] == a[j];
      } else if i >= |a| {
        assert (a + b)[i] == b[i - |a|] && (a + b)[j] == b[j - |a|];
      } else {
        assert (a + b)[i] in a && (a + b)[j] in b;
      }
    }
  }

  /**
   * Each failing validator is reported once, in the order the chain runs
   * them, so errors come name first, then email, then country.
   */
  lemma {:induction false} ErrorsFollowTheChain(name: string, email: string, country: string, isEmail: string -> bool)
    ensures RunsInOrder(Failures(name, email, country, isEmail))
  {
    var n := NameFailures(name);
    var e := EmailFailures(email, isEmail);
    ConcatRunsInOrder(n, e);
    ConcatRunsInOrder(n + e, CountryFailures(country));
  }

  /** Field ranks never decrease along an ordered list of failures. */
  lemma OrderedFailuresGroupFields(fs: seq<Rule>, msgs: Messages)
    requires RunsInOrder(fs)
    ensures var es := Report(fs, msgs);
            forall i, j :: 0 <= i < j < |es| ==> FieldRank(es[i].field) <= FieldRank(es[j].field)
  {
  }

  function FieldRank(field: string): int
  {
    if field == "name" then 0 else if field == "email" then 1 else 2
  }

  /**
   * The two copies of the chain accept the same bodies, hand on the same
   * data and report errors for the same fields in the same order; only the
   * messages differ.
   */
  lemma CopiesDifferOnlyInMessages(msgs: Messages, body: Body, isEmail: string -> bool, normalizeEmail: string -> string)
    ensures ValidateVote(msgs, body, isEmail, normalizeEmail).Proceed? ==
            ValidateVoteLiteral(body, isEmail, normalizeEmail).Proceed?
    ensures ValidateVote(msgs, body, isEmail, normalizeEmail).Proceed? ==>
              ValidateVote(msgs, body, isEmail, normalizeEmail) == ValidateVoteLiteral(body, isEmail, normalizeEmail)
    ensures var g := ValidateVote(msgs, body, isEmail, normalizeEmail);
            var l := ValidateVoteLiteral(body, isEmail, normalizeEmail);
            g.Rejected? ==>
              && |g.errors| == |l.errors|
              && forall i :: 0 <= i < |g.errors| ==> g.errors[i].field == l.errors[i].field
  {
  }

  /** With no bail-out, a missing country code reports all three country errors. */
  lemma MissingCountryReportsThreeErrors(name: string, email: string, isEmail: string -> bool)
    requires AcceptableName(name)
    requires email != "" && isEmail(email)
    ensures Report(Failures(name, email, "", isEmail), LiteralMessages) ==
              [FieldError("country", "Country code is required"),
               FieldError("country", "Country code must be 2-3 characters"),
               FieldError("country", "Country code must contain only letters")]
  {
    assert Failures(name, email, "", isEmail) == [CountryRequired, CountryLength, CountryFormat];
  }

  /** A one-letter name fails only the length rule. */
  lemma ShortNameReportsLength(email: string, country: string, isEmail: string -> bool)
    requires email != "" && isEmail(email)
    requires AcceptableCountry(country)
    ensures Report(Failures("A", email, country, isEmail), LiteralMessages) ==
              [FieldError("name", "Name must be between 2 and 100 characters")]
  {
    assert NameFailures("A") == [NameLength];
    assert EmailFailures(email, isEmail) == [];
    assert CountryFailures(country) == [];
    assert Failures("A", email, country, isEmail) == [NameLength];
  }

  /**
   * The gate implies the model's own validators, except that the model checks
   * the email once more after `createVote` lower-cases it; the upper-cased
   * country code passes through `createVote` unchanged. A trimmed name of two
   * or more characters is not blank, and neither is a code of letters.
   */
  lemma GateImpliesModelValidation(msgs: Messages, body: Body, isEmail: string -> bool, normalizeEmail: string -> string)
    requires ValidateVote(msgs, body, isEmail, normalizeEmail).Proceed?
    requires RefusesBlank(isEmail)
    requires isEmail(Lower(ValidateVote(msgs, body, isEmail, normalizeEmail).data.email))
    ensures var d := ValidateVote(msgs, body, isEmail, normalizeEmail).data;
            && Normalized(d).country == d.country
            && Normalized(d).name == d.name
            && PassesModelValidation(Normalized(d), isEmail)
  {
    ProceedShape(msgs, body, isEmail, normalizeEmail);
    NonBlankName(ValidateVote(msgs, body, isEmail, normalizeEmail).data.name);
    ShapePassesModelValidation(ValidateVote(msgs, body, isEmail, normalizeEmail).data, isEmail);
  }

  /** A ballot of the shape the gate lets through passes the model once its email is lower-cased. */
  lemma ShapePassesModelValidation(d: Ballot, isEmail: string -> bool)
    requires AcceptableName(d.name) && !Blank(d.name)
    requires 2 <= |d.country| <= 3 && (forall i :: 0 <= i < |d.country| ==> IsUpperLetter(d.country[i]))
    requires RefusesBlank(isEmail) && isEmail(Lower(d.email))
    ensures Normalized(d).country == d.country && Normalized(d).name == d.name
    ensures PassesModelValidation(Normalized(d), isEmail)
  {
    UpperOfUpperText(d.country);
    assert !IsSpace(d.country[0]);
    AcceptedEmailIsNotBlank(Lower(d.email), isEmail);
  }

  /** validator.js `isEmail` refuses a blank string: it has no `@`. */
  ghost predicate RefusesBlank(isEmail: string -> bool)
  {
    forall e :: Blank(e) ==> !isEmail(e)
  }

  lemma AcceptedEmailIsNotBlank(e: string, isEmail: string -> bool)
    requires RefusesBlank(isEmail) && isEmail(e)
    ensures !Blank(e)
  {
  }

  /** A trimmed name of two or more characters is not blank. */
  lemma NonBlankName(name: string)
    requires AcceptableName(name) && Trim(name) == name
    ensures !Blank(name)
  {
    TrimEmptyIffBlank(name);
  }
}
