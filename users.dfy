/**
 * Users: the account record (users/models.py).
 *
 * A user carries a role (one of the User.Roles values, or blank), the two
 * framework flags superuser and staff, and the profile fields. The role
 * predicates IsModerator and IsAdmin feed every permission policy.
 */
module Users {
  import opened Tables

  /** The values of User.Roles as stored in the role column. */
  const USER: string := "user"
  const ADMIN: string := "admin"
  const MODERATOR: string := "moderator"

  datatype User = User(
    id: nat,
    username: string,
    email: string,
    role: string,
    bio: string,
    firstName: string,
    lastName: string,
    isSuperuser: bool,
    isStaff: bool
  )

  // Key functions of the users table.
  function UserId(u: User): nat { u.id }
  function Username(u: User): string { u.username }
  function Email(u: User): string { u.email }
  function Identity(u: User): (string, string) { (u.username, u.email) }

  /** A value the role column accepts through the API: one of the choices, or blank. */
  predicate IsRoleValue(r: string) {
    r == USER || r == ADMIN || r == MODERATOR || r == ""
  }

  /** `is_moderator`. */
  predicate IsModerator(u: User) {
    u.role == MODERATOR
  }

  /** `is_admin`: the admin role, or either framework flag. */
  predicate IsAdmin(u: User) {
    u.role == ADMIN || u.isSuperuser || u.isStaff
  }

  /** The row `User.objects.create(username=..., email=...)` stores: defaults everywhere else. */
  function NewUser(id: nat, username: string, email: string): (u: User)
    ensures u.id == id && Identity(u) == (username, email)
    ensures u.role == USER && IsRoleValue(u.role)
    ensures !IsAdmin(u) && !IsModerator(u)
  {
    User(id, username, email, USER, "", "", "", false, false)
  }

  /** One character UnicodeUsernameValidator admits: a word character or one of @ . + - */
  predicate IsUsernameChar(c: char) {
    || 'a' <= c <= 'z' || 'A' <= c <= 'Z' || '0' <= c <= '9' || c == '_'
    || c == '@' || c == '.' || c == '+' || c == '-'
  }

  /** UnicodeUsernameValidator: one or more username characters and nothing else. */
  predicate IsUsername(s: string) {
    |s| > 0 && forall i :: 0 <= i < |s| ==> IsUsernameChar(s[i])
  }

  /** The database constraints of the users table: the primary key, unique username,
      unique email and the unique (username, email) pair. */
  predicate UsersValid(users: seq<User>) {
    && UniqueBy(users, UserId)
    && UniqueBy(users, Username)
    && UniqueBy(users, Email)
    && UniqueBy(users, Identity)
  }

  /** `__str__`: username, email and role separated by single spaces. */
  function Str(u: User): (s: string)
  {
    u.username + " " + u.email + " " + u.role
  }

  /** A superuser or staff member is admin whatever the role column says. */
  lemma FlagsMakeAdmin(u: User)
    requires u.isSuperuser || u.isStaff
    ensures IsAdmin(u)
  {
  }

  /** Without either flag, admin and moderator are exactly the two roles, and never both. */
  lemma RoleDecidesTier(u: User)
    requires !u.isSuperuser && !u.isStaff
    ensures IsAdmin(u) <==> u.role == ADMIN
    ensures IsModerator(u) ==> !IsAdmin(u)
  {
  }

  /** The unique-pair constraint adds nothing once usernames are unique. */
  lemma {:induction false} UniqueUsernameGivesUniquePair(users: seq<User>)
    requires UniqueBy(users, Username)
    ensures UniqueBy(users, Identity)
  {
    forall i, j | 0 <= i < j < |users| ensures Identity(users[i]) != Identity(users[j]) {
      assert Username(users[i]) != Username(users[j]);
    }
  }

  /** The text of `s` before its first space. */
  function UpToSpace(s: string): (r: string)
    ensures |r| <= |s|
  {
    if s == [] || s[0] == ' ' then [] else [s[0]] + UpToSpace(s[1..])
  }

  /** A word without spaces is what precedes the first space of word + " " + rest. */
  lemma {:induction false} UpToSpaceOfWord(w: string, rest: string)
    requires forall i :: 0 <= i < |w| ==> w[i] != ' '
    ensures UpToSpace(w + " " + rest) == w
  {
    if w != [] {
      assert (w + " " + rest)[1..] == w[1..] + " " + rest;
      UpToSpaceOfWord(w[1..], rest);
    }
  }

  /** `__str__` of a user with a well-formed username gives the username back as the
      text before its first space. */
  lemma StrStartsWithUsername(u: User)
    requires IsUsername(u.username)
    ensures UpToSpace(Str(u)) == u.username
  {
    assert Str(u) == u.username + " " + (u.email + " " + u.role);
    UpToSpaceOfWord(u.username, u.email + " " + u.role);
  }

  /** In a valid store, `__str__` of a well-formed user names that user alone. */
  lemma StrIdentifiesUser(users: seq<User>, u: User, v: User)
    requires UsersValid(users)
    requires u in users && v in users
    requires IsUsername(u.username) && IsUsername(v.username)
    requires Str(u) == Str(v)
    ensures u == v
  {
    StrStartsWithUsername(u);
    StrStartsWithUsername(v);
    SameKeySameRow(users, Username, u, v);
  }
}
