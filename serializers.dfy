/**
 * Serializers: the input checks of api/serializers.py.
 *
 * A serializer first runs each field's own checks (present, not blank,
 * the field's validators) and then the `validate_<field>` hooks of the
 * fields that passed; it collects every error. Each check here reads the
 * tables and returns either the accepted data or the list of errors the
 * 400 response carries. The email format check (the framework's
 * EmailValidator) is a parameter.
 */
module Serializers {
  import opened Tables
  import opened Config
  import opened Users
  import opened Core
  import opened Reviews

  datatype Field =
    | UsernameField | EmailField | FirstNameField | LastNameField | BioField | RoleField
    | TextField | ScoreField | CodeField | NameField | SlugField | NonField

  datatype Problem =
    | Required | Blank | TooLong | Invalid | Reserved | Taken | TooSmall | TooLarge | NotAChoice | NullCharacter

  datatype FieldError = FieldError(field: Field, problem: Problem)

  /** The outcome of `is_valid()`: the accepted data, or the errors. */
  datatype Checked<+T> = Accepted(value: T) | Rejected(errors: seq<FieldError>)

  /** The checks a required field makes before its validators: present, then not blank. */
  function Presence(field: Field, value: Option<string>): (errs: seq<FieldError>)
    ensures errs == [] <==> value.Some? && value.value != ""
  {
    if value.None? then [FieldError(field, Required)]
    else if value.value == "" then [FieldError(field, Blank)]
    else []
  }

  /** ProhibitNullCharactersValidator, which the framework adds to every CharField: no NUL
      character. A Dafny `char` is a Unicode scalar value, so the surrogates that
      ProhibitSurrogateCharactersValidator refuses cannot occur in a string here. */
  predicate NoNullChar(s: string) {
    '\0' !in s
  }

  /** The error ProhibitNullCharactersValidator reports for `field`. */
  function NullCharErrors(field: Field, s: string): (errs: seq<FieldError>)
    ensures errs == [] <==> NoNullChar(s)
    ensures errs != [] ==> errs == [FieldError(field, NullCharacter)]
  {
    if '\0' in s then [FieldError(field, NullCharacter)] else []
  }

  /** A username has no NUL character, so the null-character check never refuses one the
      username validator accepts. */
  lemma UsernameHasNoNullChar(s: string)
    requires IsUsername(s)
    ensures NoNullChar(s)
  {
    forall i | 0 <= i < |s| ensures s[i] != '\0' {
      assert IsUsernameChar(s[i]);
    }
  }

  /** A slug has no NUL character, so the null-character check never refuses one
      `validate_slug` accepts. */
  lemma SlugHasNoNullChar(s: string)
    requires IsSlug(s)
    ensures NoNullChar(s)
  {
    forall i | 0 <= i < |s| ensures s[i] != '\0' {
      assert IsSlugChar(s[i]);
    }
  }

  /** A required username field: UnicodeUsernameValidator and LENG_DATA_USER. */
  function UsernameFieldErrors(cfg: Settings, value: Option<string>): (errs: seq<FieldError>)
    ensures errs == [] <==> value.Some? && IsUsername(value.value) && |value.value| <= cfg.lengDataUser
  {
    var p := Presence(UsernameField, value);
    if p != [] then p
    else
      (if IsUsername(value.value) then UsernameHasNoNullChar(value.value); [] else [FieldError(UsernameField, Invalid)])
      + (if |value.value| <= cfg.lengDataUser then [] else [FieldError(UsernameField, TooLong)])
      + NullCharErrors(UsernameField, value.value)
  }

  /** A required email field: LENG_EMAIL, the email format and no NUL character. */
  function EmailFieldErrors(cfg: Settings, isEmail: string -> bool, value: Option<string>): (errs: seq<FieldError>)
    ensures errs == [] <==>
      && value.Some? && value.value != "" && |value.value| <= cfg.lengEmail && isEmail(value.value)
      && NoNullChar(value.value)
  {
    var p := Presence(EmailField, value);
    if p != [] then p
    else
      (if |value.value| <= cfg.lengEmail then [] else [FieldError(EmailField, TooLong)])
      + (if isEmail(value.value) then [] else [FieldError(EmailField, Invalid)])
      + NullCharErrors(EmailField, value.value)
  }

  // ---------------------------------------------------------------- signup

  /** The identity rule of signup: a stored username comes with its stored email, and a
      stored email with its stored username. */
  predicate IdentityConsistent(users: seq<User>, username: string, email: string) {
    && (forall u :: u in users && u.username == username ==> u.email == email)
    && (forall u :: u in users && u.email == email ==> u.username == username)
  }

  /** `UserCreationSerializer.validate_username`: not a banned name, and a stored username
      must come with the submitted email as it was sent. */
  function ValidateUsername(users: seq<User>, banned: set<string>, data: string, sentEmail: Option<string>): (errs: seq<FieldError>)
    requires UniqueBy(users, Username)
    ensures data in banned ==> errs == [FieldError(UsernameField, Reserved)]
    ensures errs == [] <==>
      data !in banned && forall u :: u in users && u.username == data ==> sentEmail == Some(u.email)
  {
    if data in banned then [FieldError(UsernameField, Reserved)]
    else
      match FindBy(users, Username, data)
      case None => []
      case Some(existing) =>
        UniqueRowFound(users, Username, existing);
        if sentEmail != Some(existing.email) then [FieldError(UsernameField, Taken)] else []
  }

  /** `UserCreationSerializer.validate_email`: a stored email must come with the submitted
      username as it was sent. */
  function ValidateEmail(users: seq<User>, data: string, sentUsername: Option<string>): (errs: seq<FieldError>)
    requires UniqueBy(users, Email)
    ensures errs == [] <==> forall u :: u in users && u.email == data ==> sentUsername == Some(u.username)
  {
    match FindBy(users, Email, data)
    case None => []
    case Some(existing) =>
      UniqueRowFound(users, Email, existing);
      if sentUsername != Some(existing.username) then [FieldError(EmailField, Taken)] else []
  }

  /** Every row with the key of a row of a unique table is that row. */
  lemma UniqueRowFound<K>(users: seq<User>, key: User -> K, x: User)
    requires UniqueBy(users, key) && x in users
    ensures forall u :: u in users && key(u) == key(x) ==> u == x
  {
    forall u | u in users && key(u) == key(x) ensures u == x {
      SameKeySameRow(users, key, u, x);
    }
  }

  /** `UserCreationSerializer(data=...).is_valid()` as signup runs it. */
  function ValidateSignup(users: seq<User>, cfg: Settings, isEmail: string -> bool,
                          username: Option<string>, email: Option<string>): (r: Checked<(string, string)>)
    requires UsersValid(users)
    ensures r.Accepted? <==>
      && username.Some? && email.Some?
      && IsUsername(username.value) && |username.value| <= cfg.lengDataUser
      && username.value !in cfg.bannedNames
      && email.value != "" && |email.value| <= cfg.lengEmail && isEmail(email.value)
      && NoNullChar(email.value)
      && IdentityConsistent(users, username.value, email.value)
    ensures r.Accepted? ==> r.value == (username.value, email.value)
    ensures username.Some? && username.value in cfg.bannedNames ==> r.Rejected?
  {
    var uf := UsernameFieldErrors(cfg, username);
    var ue := if uf != [] then uf else ValidateUsername(users, cfg.bannedNames, username.value, email);
    var ef := EmailFieldErrors(cfg, isEmail, email);
    var ee := if ef != [] then ef else ValidateEmail(users, email.value, username);
    if ue == [] && ee == [] then Accepted((username.value, email.value)) else Rejected(ue + ee)
  }

  /** A pair whose two halves are both new, or that is exactly a stored user's, passes the
      identity rule. */
  lemma NewOrStoredPairPasses(users: seq<User>, username: string, email: string)
    requires UsersValid(users)
    requires (forall u :: u in users ==> u.username != username && u.email != email)
             || exists u :: u in users && Identity(u) == (username, email)
    ensures IdentityConsistent(users, username, email)
  {
    if exists u :: u in users && Identity(u) == (username, email) {
      var s :| s in users && Identity(s) == (username, email);
      forall u | u in users && u.username == username ensures u.email == email {
        SameKeySameRow(users, Username, u, s);
      }
      forall u | u in users && u.email == email ensures u.username == username {
        SameKeySameRow(users, Email, u, s);
      }
    }
  }

  /** A stored username sent with another email is refused (the second half of the signup
      rule), whatever else holds. */
  lemma StoredUsernameOtherEmailRejected(users: seq<User>, cfg: Settings, isEmail: string -> bool, u: User, email: string)
    requires UsersValid(users)
    requires u in users && email != u.email
    ensures ValidateSignup(users, cfg, isEmail, Some(u.username), Some(email)).Rejected?
  {
  }

  /** The identity rule leaves two cases: the pair is a stored user's, or neither half is
      stored. So a signup that passes and finds no such user inserts a row that breaks no
      UNIQUE constraint. */
  lemma ConsistentPairIsStoredOrNew(users: seq<User>, username: string, email: string)
    requires IdentityConsistent(users, username, email)
    requires forall u :: u in users ==> Identity(u) != (username, email)
    ensures username !in KeySet(users, Username)
    ensures email !in KeySet(users, Email)
  {
    forall u | u in users ensures Username(u) != username && Email(u) != email {
      assert Identity(u) != (username, email);
    }
  }

  /** Signup accepts the same pair again once its user is stored: re-signup is idempotent. */
  lemma SignupAcceptedAgain(users: seq<User>, cfg: Settings, isEmail: string -> bool,
                            username: string, email: string, id: nat)
    requires UsersValid(users)
    requires ValidateSignup(users, cfg, isEmail, Some(username), Some(email)).Accepted?
    requires forall u :: u in users ==> Identity(u) != (username, email)
    requires id !in KeySet(users, UserId)
    ensures UsersValid(users + [NewUser(id, username, email)])
    ensures ValidateSignup(users + [NewUser(id, username, email)], cfg, isEmail, Some(username), Some(email)).Accepted?
  {
    var n := NewUser(id, username, email);
    var after := users + [n];
    ConsistentPairIsStoredOrNew(users, username, email);
    AppendKeepsUnique(users, n, UserId);
    AppendKeepsUnique(users, n, Username);
    AppendKeepsUnique(users, n, Email);
    AppendKeepsUnique(users, n, Identity);
    assert n in after;
    NewOrStoredPairPasses(after, username, email);
  }

  // ------------------------------------------------------------ token request

  /** `GetTokenSerializer(data=...).is_valid()`: a username within LENG_DATA_USER and a
      confirmation code, both present, not blank and free of NUL characters. */
  function ValidateTokenRequest(cfg: Settings, username: Option<string>, code: Option<string>): (r: Checked<(string, string)>)
    ensures r.Accepted? <==>
      && username.Some? && username.value != "" && |username.value| <= cfg.lengDataUser
      && NoNullChar(username.value)
      && code.Some? && code.value != "" && NoNullChar(code.value)
    ensures r.Accepted? ==> r.value == (username.value, code.value)
  {
    var un := Presence(UsernameField, username);
    var ue :=
      if un != [] then un
      else
        (if |username.value| <= cfg.lengDataUser then [] else [FieldError(UsernameField, TooLong)])
        + NullCharErrors(UsernameField, username.value);
    var cp := Presence(CodeField, code);
    var ce := if cp != [] then cp else NullCharErrors(CodeField, code.value);
    if ue == [] && ce == [] then Accepted((username.value, code.value)) else Rejected(ue + ce)
  }

  // ---------------------------------------------------------------- reviews

  /** `ReviewSerializer.score`: a required integer between 1 and 10. */
  function ScoreFieldErrors(score: Option<int>): (errs: seq<FieldError>)
    ensures errs == [] <==> score.Some? && ScoreInRange(score.value)
  {
    if score.None? then [FieldError(ScoreField, Required)]
    else if score.value < MIN_SCORE then [FieldError(ScoreField, TooSmall)]
    else if score.value > MAX_SCORE then [FieldError(ScoreField, TooLarge)]
    else []
  }

  /** A review row created at the model level without a score gets the default, and the
      default passes the API's score bounds. */
  lemma DefaultScorePassesValidators()
    ensures ModelScore(None) == DEFAULT_SCORE
    ensures ScoreFieldErrors(Some(ModelScore(None))) == []
  {
  }

  /** The `text` field of Review and Comment: required, not blank, at most LENG_MAX, no
      NUL character. */
  function TextFieldErrors(cfg: Settings, text: Option<string>): (errs: seq<FieldError>)
    ensures errs == [] <==>
      text.Some? && text.value != "" && |text.value| <= cfg.lengMax && NoNullChar(text.value)
  {
    var p := Presence(TextField, text);
    if p != [] then p
    else
      (if |text.value| <= cfg.lengMax then [] else [FieldError(TextField, TooLong)])
      + NullCharErrors(TextField, text.value)
  }

  /** The field checks of ReviewSerializer. */
  function ReviewFieldErrors(cfg: Settings, text: Option<string>, score: Option<int>): (errs: seq<FieldError>)
    ensures errs == [] <==>
      && text.Some? && text.value != "" && |text.value| <= cfg.lengMax && NoNullChar(text.value)
      && score.Some? && ScoreInRange(score.value)
  {
    TextFieldErrors(cfg, text) + ScoreFieldErrors(score)
  }

  datatype ReviewCheck = ReviewPasses | TitleMissing | AlreadyReviewed

  /** `ReviewSerializer.validate`: the path's title must exist (404 otherwise), and a POST
      by an author who already reviewed that title is refused; other methods pass. */
  function ValidateReview(reviews: seq<Review>, titles: seq<Title>, author: nat, titleId: nat, verb: string): (v: ReviewCheck)
    ensures v == TitleMissing <==> titleId !in KeySet(titles, TitleId)
    ensures v == AlreadyReviewed <==>
      titleId in KeySet(titles, TitleId) && verb == "POST" && (titleId, author) in KeySet(reviews, ReviewSlot)
  {
    var reviewExists := FindBy(reviews, ReviewSlot, (titleId, author)).Some?;
    match FindBy(titles, TitleId, titleId)
    case None => TitleMissing
    case Some(_) => if verb == "POST" && reviewExists then AlreadyReviewed else ReviewPasses
  }

  // ------------------------------------------------------------------ users

  /** The fields of a UserSerializer payload; a missing key is None. */
  datatype UserData = UserData(
    username: Option<string>,
    email: Option<string>,
    firstName: Option<string>,
    lastName: Option<string>,
    bio: Option<string>,
    role: Option<string>
  )

  /** The max_length the framework's user model gives first_name and last_name. */
  const NAME_MAX: nat := 150

  /** UniqueValidator on the users table, leaving out the row being updated. */
  predicate TakenByOther<K(==)>(users: seq<User>, self: Option<nat>, key: User -> K, v: K) {
    exists u :: u in users && Some(u.id) != self && key(u) == v
  }

  /** The username and email a payload leaves the user with: the sent ones, or the stored
      ones for a partial update that leaves them out. */
  function ResultIdentity(instance: Option<User>, d: UserData): (string, string) {
    var un := if d.username.Some? then d.username.value else if instance.Some? then instance.value.username else "";
    var em := if d.email.Some? then d.email.value else if instance.Some? then instance.value.email else "";
    (un, em)
  }

  /** The username field of UserSerializer: required unless the update is partial; when
      sent, well formed, within LENG_DATA_USER and held by no other user. */
  function UserUsernameErrors(users: seq<User>, cfg: Settings, self: Option<nat>, v: Option<string>, partial: bool): (errs: seq<FieldError>)
    ensures errs == [] <==>
      if v.None? then partial
      else IsUsername(v.value) && |v.value| <= cfg.lengDataUser && !TakenByOther(users, self, Username, v.value)
  {
    if v.None? then (if partial then [] else [FieldError(UsernameField, Required)])
    else if v.value == "" then [FieldError(UsernameField, Blank)]
    else
      (if TakenByOther(users, self, Username, v.value) then [FieldError(UsernameField, Taken)] else [])
      + (if IsUsername(v.value) then UsernameHasNoNullChar(v.value); [] else [FieldError(UsernameField, Invalid)])
      + (if |v.value| <= cfg.lengDataUser then [] else [FieldError(UsernameField, TooLong)])
      + NullCharErrors(UsernameField, v.value)
  }

  /** The email field of UserSerializer: required unless the update is partial; when
      sent, not blank, within LENG_EMAIL, well formed, free of NUL characters and held by
      no other user. */
  function UserEmailErrors(users: seq<User>, cfg: Settings, isEmail: string -> bool, self: Option<nat>, v: Option<string>, partial: bool): (errs: seq<FieldError>)
    ensures errs == [] <==>
      if v.None? then partial
      else
        && v.value != "" && |v.value| <= cfg.lengEmail && isEmail(v.value) && NoNullChar(v.value)
        && !TakenByOther(users, self, Email, v.value)
  {
    if v.None? then (if partial then [] else [FieldError(EmailField, Required)])
    else if v.value == "" then [FieldError(EmailField, Blank)]
    else
      (if TakenByOther(users, self, Email, v.value) then [FieldError(EmailField, Taken)] else [])
      + (if |v.value| <= cfg.lengEmail then [] else [FieldError(EmailField, TooLong)])
      + (if isEmail(v.value) then [] else [FieldError(EmailField, Invalid)])
      + NullCharErrors(EmailField, v.value)
  }

  /** The optional fields of UserSerializer: names within NAME_MAX, a role among the
      choices or blank; the names and the bio free of NUL characters. */
  function UserOptionalErrors(d: UserData): (errs: seq<FieldError>)
    ensures errs == [] <==>
      && (d.firstName.Some? ==> |d.firstName.value| <= NAME_MAX && NoNullChar(d.firstName.value))
      && (d.lastName.Some? ==> |d.lastName.value| <= NAME_MAX && NoNullChar(d.lastName.value))
      && (d.bio.Some? ==> NoNullChar(d.bio.value))
      && (d.role.Some? ==> IsRoleValue(d.role.value))
  {
    (if d.firstName.Some? && |d.firstName.value| > NAME_MAX then [FieldError(FirstNameField, TooLong)] else [])
    + (if d.firstName.Some? then NullCharErrors(FirstNameField, d.firstName.value) else [])
    + (if d.lastName.Some? && |d.lastName.value| > NAME_MAX then [FieldError(LastNameField, TooLong)] else [])
    + (if d.lastName.Some? then NullCharErrors(LastNameField, d.lastName.value) else [])
    + (if d.bio.Some? then NullCharErrors(BioField, d.bio.value) else [])
    + (if d.role.Some? && !IsRoleValue(d.role.value) then [FieldError(RoleField, NotAChoice)] else [])
  }

  /** `UserSerializer(instance, data, partial).is_valid()`: the field checks, then the
      UniqueTogetherValidator on (username, email), both uniqueness checks leaving out the
      instance itself. */
  function ValidateUserData(users: seq<User>, cfg: Settings, isEmail: string -> bool,
                            instance: Option<User>, d: UserData, partial: bool): (r: Checked<UserData>)
    requires UsersValid(users)
    requires instance.Some? ==> instance.value in users
    requires partial ==> instance.Some?
    ensures r.Accepted? <==>
      var self := if instance.Some? then Some(instance.value.id) else None;
      && UserUsernameErrors(users, cfg, self, d.username, partial) == []
      && UserEmailErrors(users, cfg, isEmail, self, d.email, partial) == []
      && UserOptionalErrors(d) == []
      && !TakenByOther(users, self, Identity, ResultIdentity(instance, d))
    ensures r.Accepted? ==> r.value == d
    ensures r.Accepted? ==>
      var self := if instance.Some? then Some(instance.value.id) else None;
      var (un, em) := ResultIdentity(instance, d);
      && !TakenByOther(users, self, Username, un)
      && !TakenByOther(users, self, Email, em)
    ensures r.Accepted? && d.role.Some? ==> IsRoleValue(d.role.value)
    ensures (d.username.Some? && d.username.value != "" &&
             TakenByOther(users, if instance.Some? then Some(instance.value.id) else None, Username, d.username.value))
            ==> r.Rejected?
    ensures (d.email.Some? && d.email.value != "" &&
             TakenByOther(users, if instance.Some? then Some(instance.value.id) else None, Email, d.email.value))
            ==> r.Rejected?
    ensures !partial && r.Accepted? ==> d.username.Some? && d.email.Some?
  {
    var self := if instance.Some? then Some(instance.value.id) else None;
    var fieldErrs :=
      UserUsernameErrors(users, cfg, self, d.username, partial)
      + UserEmailErrors(users, cfg, isEmail, self, d.email, partial)
      + UserOptionalErrors(d);
    if fieldErrs != [] then Rejected(fieldErrs)
    else if TakenByOther(users, self, Identity, ResultIdentity(instance, d)) then Rejected([FieldError(NonField, Taken)])
    else
      assert d.username.None? ==> !TakenByOther(users, self, Username, instance.value.username) by {
        if d.username.None? { InstanceNotTakenByOther(users, instance.value, Username); }
      }
      assert d.email.None? ==> !TakenByOther(users, self, Email, instance.value.email) by {
        if d.email.None? { InstanceNotTakenByOther(users, instance.value, Email); }
      }
      Accepted(d)
  }

  /** Stored values of the row being updated are not taken by any other row. */
  lemma InstanceNotTakenByOther<K>(users: seq<User>, instance: User, key: User -> K)
    requires UniqueBy(users, key) && instance in users
    ensures !TakenByOther(users, Some(instance.id), key, key(instance))
  {
    forall u | u in users && key(u) == key(instance) ensures u.id == instance.id {
      SameKeySameRow(users, key, u, instance);
    }
  }

  /** Once the username passes its UniqueValidator, the pair passes the
      UniqueTogetherValidator. */
  lemma PairCheckImpliedByFieldChecks(users: seq<User>, self: Option<nat>, un: string, em: string)
    requires !TakenByOther(users, self, Username, un)
    ensures !TakenByOther(users, self, Identity, (un, em))
  {
  }

  /** The table-level pair check never fires on its own: UserSerializer accepts a payload
      exactly when its three groups of field checks pass. */
  lemma FieldChecksDecideUserData(users: seq<User>, cfg: Settings, isEmail: string -> bool,
                                  instance: Option<User>, d: UserData, partial: bool)
    requires UsersValid(users)
    requires instance.Some? ==> instance.value in users
    requires partial ==> instance.Some?
    ensures ValidateUserData(users, cfg, isEmail, instance, d, partial).Accepted? <==>
      var self := if instance.Some? then Some(instance.value.id) else None;
      && UserUsernameErrors(users, cfg, self, d.username, partial) == []
      && UserEmailErrors(users, cfg, isEmail, self, d.email, partial) == []
      && UserOptionalErrors(d) == []
  {
    var self := if instance.Some? then Some(instance.value.id) else None;
    if UserUsernameErrors(users, cfg, self, d.username, partial) == [] {
      var (un, em) := ResultIdentity(instance, d);
      if d.username.None? {
        InstanceNotTakenByOther(users, instance.value, Username);
      }
      PairCheckImpliedByFieldChecks(users, self, un, em);
    }
  }

  /** The row `UserSerializer.save()` creates from an accepted payload; fields left out
      take the model defaults (role `user`, blank texts). */
  function UserFromData(id: nat, d: UserData): (u: User)
    requires d.username.Some? && d.email.Some?
    ensures u.id == id && Identity(u) == (d.username.value, d.email.value)
    ensures d.role.None? ==> u.role == USER
    ensures d.role.Some? ==> u.role == d.role.value
    ensures !u.isSuperuser && !u.isStaff
  {
    User(id, d.username.value, d.email.value,
         if d.role.Some? then d.role.value else USER,
         if d.bio.Some? then d.bio.value else "",
         if d.firstName.Some? then d.firstName.value else "",
         if d.lastName.Some? then d.lastName.value else "",
         false, false)
  }

  /** A user created from a payload UserSerializer accepts breaks none of the users
      table's UNIQUE constraints, and gets a role among the choices or blank. */
  lemma AcceptedUserKeepsUsersValid(users: seq<User>, cfg: Settings, isEmail: string -> bool, d: UserData, id: nat)
    requires UsersValid(users)
    requires ValidateUserData(users, cfg, isEmail, None, d, false).Accepted?
    requires id !in KeySet(users, UserId)
    ensures UsersValid(users + [UserFromData(id, d)])
    ensures IsRoleValue(UserFromData(id, d).role)
  {
    var u := UserFromData(id, d);
    forall x | x in users ensures Username(x) != u.username && Email(x) != u.email && Identity(x) != Identity(u) {
      assert Some(x.id) != None;
    }
    AppendKeepsUnique(users, u, UserId);
    AppendKeepsUnique(users, u, Username);
    AppendKeepsUnique(users, u, Email);
    AppendKeepsUnique(users, u, Identity);
  }

  // ------------------------------------------------------- categories, genres

  /** The `name` field of a Category or Genre: required, unique, at most LENG_MAX, no NUL
      character. */
  function GroupNameErrors(groups: seq<Group>, cfg: Settings, name: Option<string>): (errs: seq<FieldError>)
    ensures errs == [] <==>
      && name.Some? && name.value != "" && |name.value| <= cfg.lengMax && NoNullChar(name.value)
      && name.value !in KeySet(groups, GroupName)
  {
    var p := Presence(NameField, name);
    if p != [] then p
    else
      (if name.value in KeySet(groups, GroupName) then [FieldError(NameField, Taken)] else [])
      + (if |name.value| <= cfg.lengMax then [] else [FieldError(NameField, TooLong)])
      + NullCharErrors(NameField, name.value)
  }

  /** The `slug` field of a Category or Genre: required, unique, at most LENG_SLUG, and
      accepted by `validate_slug`. */
  function GroupSlugErrors(groups: seq<Group>, cfg: Settings, slug: Option<string>): (errs: seq<FieldError>)
    ensures errs == [] <==>
      slug.Some? && IsSlug(slug.value) && |slug.value| <= cfg.lengSlug && slug.value !in KeySet(groups, GroupSlug)
  {
    var p := Presence(SlugField, slug);
    if p != [] then p
    else
      (if slug.value in KeySet(groups, GroupSlug) then [FieldError(SlugField, Taken)] else [])
      + (if |slug.value| <= cfg.lengSlug then [] else [FieldError(SlugField, TooLong)])
      + (if IsSlug(slug.value) then SlugHasNoNullChar(slug.value); [] else [FieldError(SlugField, Invalid)])
      + NullCharErrors(SlugField, slug.value)
  }

  /** The auto-generated serializer of Category and Genre. */
  function ValidateGroup(groups: seq<Group>, cfg: Settings, name: Option<string>, slug: Option<string>): (r: Checked<(string, string)>)
    ensures r.Accepted? <==>
      && name.Some? && name.value != "" && |name.value| <= cfg.lengMax && NoNullChar(name.value)
      && name.value !in KeySet(groups, GroupName)
      && slug.Some? && IsSlug(slug.value) && |slug.value| <= cfg.lengSlug && slug.value !in KeySet(groups, GroupSlug)
    ensures r.Accepted? ==> r.value == (name.value, slug.value)
  {
    var ne := GroupNameErrors(groups, cfg, name);
    var se := GroupSlugErrors(groups, cfg, slug);
    if ne == [] && se == [] then Accepted((name.value, slug.value)) else Rejected(ne + se)
  }

  /** A category or genre that passes its serializer can be stored without breaking the
      table's constraints. */
  lemma AcceptedGroupKeepsTableValid(groups: seq<Group>, cfg: Settings, name: Option<string>, slug: Option<string>, id: nat)
    requires GroupsValid(groups)
    requires ValidateGroup(groups, cfg, name, slug).Accepted?
    requires id !in KeySet(groups, GroupId)
    ensures GroupsValid(groups + [Group(id, name.value, slug.value)])
  {
    var g := Group(id, name.value, slug.value);
    AppendKeepsUnique(groups, g, GroupId);
    AppendKeepsUnique(groups, g, GroupName);
    AppendKeepsUnique(groups, g, GroupSlug);
  }
}
