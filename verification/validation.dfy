/**
 * The request validators: field rules for users, ideas and projects, and
 * the middleware that turns collected errors into a 400 response.
 *
 * Each rule chain runs to the end (no chain stops at its first failure), so
 * every failing check of every chain contributes one error, in declaration
 * order. A chain marked optional is skipped only when its field is undefined.
 */
module Validation {
  import opened Js
  import opened Text
  import opened Sessions

  /** The request fields the rules name; `Path()` is the `field` reported in the details. */
  datatype Field = Username | Email | Password | Role | Id | Title | Description | IdeaId
  {
    function Path(): string
    {
      match this
      case Username => "username"
      case Email => "email"
      case Password => "password"
      case Role => "role"
      case Id => "id"
      case Title => "title"
      case Description => "description"
      case IdeaId => "ideaId"
    }
  }

  datatype FieldError = FieldError(field: Field, message: string)

  datatype Verdict = Proceed | Rejected(details: seq<FieldError>)
  {
    function Status(): int
      requires Rejected?
    {
      400
    }
  }

  /** `handleValidationErrors`: any error stops the request with the full detail list. */
  function HandleValidationErrors(errors: seq<FieldError>): (v: Verdict)
    ensures v == Proceed <==> |errors| == 0
    ensures v.Rejected? ==> v.details == errors
  {
    if |errors| == 0 then Proceed else Rejected(errors)
  }

  /** The string a check sees for a field: undefined and null read as the empty string. */
  function AsString(v: Value): string
  {
    match v
    case Undefined => ""
    case Null => ""
    case Bool(b) => if b then "true" else "false"
    case Num(n) => NumberString(n)
    case Str(s) => s
  }

  /** One check of a chain: no error when it holds, one error for `field` otherwise. */
  function Rule(ok: bool, field: Field, message: string): (e: seq<FieldError>)
    ensures ok ==> e == []
    ensures !ok ==> e == [FieldError(field, message)]
  {
    if ok then [] else [FieldError(field, message)]
  }

  /** `.optional()`: the chain's errors, or none when the field is undefined. */
  function Optional(v: Value, errors: seq<FieldError>): (e: seq<FieldError>)
    ensures v.Undefined? ==> e == []
    ensures Defined(v) ==> e == errors
  {
    if v.Undefined? then [] else errors
  }

  /** Every error in the list concerns one of the named fields. */
  predicate AllAbout(errors: seq<FieldError>, fields: set<Field>)
  {
    forall e :: e in errors ==> e.field in fields
  }

  // ---------------------------------------------------------------- field rules

  predicate IsUsernameChar(c: char)
  {
    ('a' <= c <= 'z') || ('A' <= c <= 'Z') || ('0' <= c <= '9') || c == '_' || c == '-'
  }

  /** `/^[a-zA-Z0-9_-]+$/` */
  predicate UsernamePattern(s: string)
  {
    |s| > 0 && forall i :: 0 <= i < |s| ==> IsUsernameChar(s[i])
  }

  /** An acceptable username once trimmed: 3 to 50 characters, all from the pattern's class. */
  predicate GoodUsername(v: Value)
  {
    var s := Trim(AsString(v));
    3 <= VisibleLength(s) <= 50 && UsernamePattern(s)
  }

  predicate GoodEmail(v: Value, isEmail: string -> bool)
  {
    isEmail(Trim(AsString(v)))
  }

  predicate GoodPassword(v: Value)
  {
    VisibleLength(AsString(v)) >= 6
  }

  predicate GoodRole(v: Value)
  {
    AsString(v) in UserRoles
  }

  /** `isInt({ min: 1 })` on a path parameter. */
  predicate GoodId(param: string)
  {
    IsIntLiteral(param) && IntLiteralValue(param) >= 1
  }

  predicate GoodTitle(v: Value)
  {
    3 <= VisibleLength(Trim(AsString(v))) <= 200
  }

  predicate GoodDescription(v: Value)
  {
    VisibleLength(Trim(AsString(v))) >= 10
  }

  // ------------------------------------------------------------------- chains

  function UsernameChecks(v: Value): (e: seq<FieldError>)
    ensures |e| == 0 <==> GoodUsername(v)
    ensures AllAbout(e, {Username})
  {
    var s := Trim(AsString(v));
    Rule(3 <= VisibleLength(s) <= 50, Username, "Username must be between 3 and 50 characters")
    + Rule(UsernamePattern(s), Username, "Username can only contain letters, numbers, underscores and hyphens")
  }

  function EmailChecks(v: Value, isEmail: string -> bool): (e: seq<FieldError>)
    ensures |e| == 0 <==> GoodEmail(v, isEmail)
    ensures AllAbout(e, {Email})
  {
    Rule(isEmail(Trim(AsString(v))), Email, "Invalid email format")
  }

  function PasswordChecks(v: Value): (e: seq<FieldError>)
    ensures |e| == 0 <==> GoodPassword(v)
    ensures AllAbout(e, {Password})
  {
    Rule(VisibleLength(AsString(v)) >= 6, Password, "Password must be at least 6 characters long")
  }

  function RoleChecks(v: Value): (e: seq<FieldError>)
    ensures |e| == 0 <==> GoodRole(v)
    ensures AllAbout(e, {Role})
  {
    Rule(AsString(v) in UserRoles, Role, "Invalid role")
  }

  function IdChecks(param: string, message: string): (e: seq<FieldError>)
    ensures |e| == 0 <==> GoodId(param)
    ensures AllAbout(e, {Id})
  {
    Rule(GoodId(param), Id, message)
  }

  function TitleChecks(v: Value): (e: seq<FieldError>)
    ensures |e| == 0 <==> GoodTitle(v)
    ensures AllAbout(e, {Title})
  {
    Rule(GoodTitle(v), Title, "Title must be between 3 and 200 characters")
  }

  function DescriptionChecks(v: Value): (e: seq<FieldError>)
    ensures |e| == 0 <==> GoodDescription(v)
    ensures AllAbout(e, {Description})
  {
    Rule(GoodDescription(v), Description, "Description must be at least 10 characters long")
  }

  /** `.notEmpty()` on the string the chain currently holds. */
  function Required(s: string, field: Field, message: string): (e: seq<FieldError>)
    ensures |e| == 0 <==> |s| > 0
    ensures AllAbout(e, {field})
  {
    Rule(|s| > 0, field, message)
  }

  // --------------------------------------------------------------- validators

  /** `validateUserRegistration` */
  function UserRegistrationErrors(username: Value, email: Value, password: Value, role: Value,
                                  isEmail: string -> bool): (e: seq<FieldError>)
    ensures |e| == 0 <==>
              GoodUsername(username) && Trim(AsString(email)) != "" && GoodEmail(email, isEmail)
              && GoodPassword(password) && GoodRole(role)
    ensures AllAbout(e, {Username, Email, Password, Role})
  {
    RequiredUsernameChecks(username) + CredentialErrors(email, password, role, isEmail)
  }

  /** The registration email, password and role chains, each starting with a presence check. */
  function CredentialErrors(email: Value, password: Value, role: Value,
                            isEmail: string -> bool): (e: seq<FieldError>)
    ensures |e| == 0 <==>
              Trim(AsString(email)) != "" && GoodEmail(email, isEmail)
              && GoodPassword(password) && GoodRole(role)
    ensures AllAbout(e, {Email, Password, Role})
  {
    Required(Trim(AsString(email)), Email, "Email is required") + EmailChecks(email, isEmail)
    + Required(AsString(password), Password, "Password is required") + PasswordChecks(password)
    + Required(AsString(role), Role, "Role is required") + RoleChecks(role)
  }

  /** The registration username chain: present after trimming, then the shared rules. */
  function RequiredUsernameChecks(username: Value): (e: seq<FieldError>)
    ensures |e| == 0 <==> GoodUsername(username)
    ensures AllAbout(e, {Username})
  {
    Required(Trim(AsString(username)), Username, "Username is required") + UsernameChecks(username)
  }

  /** `validateUserLogin` */
  function UserLoginErrors(username: Value, password: Value): (e: seq<FieldError>)
    ensures |e| == 0 <==> |Trim(AsString(username))| > 0 && |AsString(password)| > 0
    ensures AllAbout(e, {Username, Password})
  {
    Required(Trim(AsString(username)), Username, "Username is required")
    + Required(AsString(password), Password, "Password is required")
  }

  /** `validateUserUpdate`: the id, then the same field rules for whichever fields are present. */
  function UserUpdateErrors(id: string, username: Value, email: Value, password: Value, role: Value,
                            isEmail: string -> bool): (e: seq<FieldError>)
    ensures |e| == 0 <==>
              GoodId(id)
              && (Defined(username) ==> GoodUsername(username))
              && (Defined(email) ==> GoodEmail(email, isEmail))
              && (Defined(password) ==> GoodPassword(password))
              && (Defined(role) ==> GoodRole(role))
    ensures AllAbout(e, {Id, Username, Email, Password, Role})
  {
    IdChecks(id, "Invalid user ID")
    + Optional(username, UsernameChecks(username))
    + Optional(email, EmailChecks(email, isEmail))
    + Optional(password, PasswordChecks(password))
    + Optional(role, RoleChecks(role))
  }

  /** `validateUserId` */
  function UserIdErrors(id: string): (e: seq<FieldError>)
    ensures |e| == 0 <==> GoodId(id)
    ensures |e| != 0 ==> e == [FieldError(Id, "Invalid user ID")]
  {
    IdChecks(id, "Invalid user ID")
  }

  /** The title and description chains shared by idea and project creation. */
  function TitleDescriptionErrors(title: Value, description: Value): (e: seq<FieldError>)
    ensures |e| == 0 <==> GoodTitle(title) && GoodDescription(description)
    ensures AllAbout(e, {Title, Description})
  {
    Required(Trim(AsString(title)), Title, "Title is required") + TitleChecks(title)
    + Required(Trim(AsString(description)), Description, "Description is required")
    + DescriptionChecks(description)
  }

  /** `validateIdeaCreation` */
  function IdeaCreationErrors(title: Value, description: Value): (e: seq<FieldError>)
    ensures |e| == 0 <==> GoodTitle(title) && GoodDescription(description)
  {
    TitleDescriptionErrors(title, description)
  }

  /** The optional title and description chains shared by idea and project updates. */
  function OptionalTitleDescriptionErrors(title: Value, description: Value): (e: seq<FieldError>)
    ensures |e| == 0 <==>
              (Defined(title) ==> GoodTitle(title)) && (Defined(description) ==> GoodDescription(description))
  {
    Optional(title, TitleChecks(title)) + Optional(description, DescriptionChecks(description))
  }

  /** `validateIdeaUpdate` */
  function IdeaUpdateErrors(id: string, title: Value, description: Value): (e: seq<FieldError>)
    ensures |e| == 0 <==>
              GoodId(id) && (Defined(title) ==> GoodTitle(title))
              && (Defined(description) ==> GoodDescription(description))
    ensures !GoodId(id) ==> |e| > 0 && e[0] == FieldError(Id, "Invalid idea ID")
  {
    IdChecks(id, "Invalid idea ID") + OptionalTitleDescriptionErrors(title, description)
  }

  /** `validateIdeaId` */
  function IdeaIdErrors(id: string): (e: seq<FieldError>)
    ensures |e| == 0 <==> GoodId(id)
    ensures |e| != 0 ==> e == [FieldError(Id, "Invalid idea ID")]
  {
    IdChecks(id, "Invalid idea ID")
  }

  /** `validateProjectCreation`: title, description and an optional positive `ideaId`. */
  function ProjectCreationErrors(title: Value, description: Value, ideaId: Value): (e: seq<FieldError>)
    ensures |e| == 0 <==>
              GoodTitle(title) && GoodDescription(description)
              && (Defined(ideaId) ==> GoodId(AsString(ideaId)))
  {
    TitleDescriptionErrors(title, description)
    + Optional(ideaId, Rule(GoodId(AsString(ideaId)), IdeaId, "Invalid idea ID"))
  }

  /** `validateProjectUpdate` */
  function ProjectUpdateErrors(id: string, title: Value, description: Value): (e: seq<FieldError>)
    ensures |e| == 0 <==>
              GoodId(id) && (Defined(title) ==> GoodTitle(title))
              && (Defined(description) ==> GoodDescription(description))
    ensures !GoodId(id) ==> |e| > 0 && e[0] == FieldError(Id, "Invalid project ID")
  {
    IdChecks(id, "Invalid project ID") + OptionalTitleDescriptionErrors(title, description)
  }

  /** `validateProjectId` */
  function ProjectIdErrors(id: string): (e: seq<FieldError>)
    ensures |e| == 0 <==> GoodId(id)
    ensures |e| != 0 ==> e == [FieldError(Id, "Invalid project ID")]
  {
    IdChecks(id, "Invalid project ID")
  }

  // ------------------------------------------------------------------- lemmas

  /** The id rule accepts the decimal form of an integer exactly when the integer is at least 1. */
  lemma GoodIdOfNumber(n: int)
    ensures GoodId(DecimalString(n)) <==> n >= 1
  {
    DecimalRoundTrip(n);
  }

  /**
   * A numeric `ideaId` in a project body passes exactly when it is positive
   * and below 10^21, where JavaScript starts writing it as `1e+21`.
   */
  lemma NumericIdeaId(title: Value, description: Value, n: int)
    requires GoodTitle(title) && GoodDescription(description)
    ensures |ProjectCreationErrors(title, description, Num(n))| == 0 <==> 1 <= n < ExponentThreshold
  {
    NumberStringIsInt(n);
  }

  /** An accepted username is, once trimmed, 3 to 50 characters from `[a-zA-Z0-9_-]`. */
  lemma AcceptedUsernameShape(v: Value)
    requires GoodUsername(v)
    ensures var s := Trim(AsString(v));
            |s| > 0 && 3 <= |s| <= 50 && forall i :: 0 <= i < |s| ==> IsUsernameChar(s[i])
  {
    var s := Trim(AsString(v));
    VisibleLengthWithoutSelectors(s);
  }

  /** Without a username the registration username chain reports all three of its checks. */
  lemma MissingUsernameChain()
    ensures RequiredUsernameChecks(Undefined)
            == [FieldError(Username, "Username is required"),
                FieldError(Username, "Username must be between 3 and 50 characters"),
                FieldError(Username, "Username can only contain letters, numbers, underscores and hyphens")]
  {
    assert Trim(AsString(Undefined)) == "" by {
      assert TrimStart("") == "" && TrimEnd("") == "";
    }
    assert !UsernamePattern(Trim(AsString(Undefined)));
  }

  /**
   * The chains do not stop early: a registration without a username reports
   * the missing value, the length and the pattern, three errors in that order,
   * ahead of anything the other fields contribute.
   */
  lemma MissingUsernameReportsEveryCheck(email: Value, password: Value, role: Value,
                                         isEmail: string -> bool)
    ensures var e := UserRegistrationErrors(Undefined, email, password, role, isEmail);
            |e| >= 3
            && e[0] == FieldError(Username, "Username is required")
            && e[1] == FieldError(Username, "Username must be between 3 and 50 characters")
            && e[2] == FieldError(Username, "Username can only contain letters, numbers, underscores and hyphens")
  {
    MissingUsernameChain();
    var e := UserRegistrationErrors(Undefined, email, password, role, isEmail);
    assert e == RequiredUsernameChecks(Undefined) + CredentialErrors(email, password, role, isEmail);
  }

  /** An update body with no fields passes the user-update rules whenever its id does. */
  lemma EmptyUserUpdateNeedsOnlyId(id: string, isEmail: string -> bool)
    ensures |UserUpdateErrors(id, Undefined, Undefined, Undefined, Undefined, isEmail)| == 0 <==> GoodId(id)
  {
  }
}
