/**
 * Permissions: the three permission classes of api/permissions.py.
 *
 * A request is seen as who sends it (anonymous or an authenticated user) and
 * its HTTP method. The framework asks `has_permission` of every request and,
 * once a target row is known (retrieve, update, destroy), also
 * `has_object_permission` with that row's author; the base class answers
 * the latter with True, which AdminOnly and AdminOrReadOnly inherit.
 */
module Permissions {
  import opened Tables
  import opened Users

  datatype Requester = Anonymous | Authenticated(user: User)

  /** The framework's SAFE_METHODS. */
  const SAFE_METHODS: seq<string> := ["GET", "HEAD", "OPTIONS"]

  predicate IsSafe(verb: string) {
    verb in SAFE_METHODS
  }

  /** `AdminOnly.has_permission`. For an anonymous requester the method falls off its
      end and returns None, which the framework reads as a refusal. */
  function AdminOnlyHasPermission(req: Requester): (granted: bool)
    ensures granted <==> req.Authenticated? && (req.user.role == ADMIN || req.user.isSuperuser || req.user.isStaff)
  {
    if req.Authenticated? then IsAdmin(req.user) else false
  }

  /** `AdminOrReadOnly.has_permission`. */
  function AdminOrReadOnlyHasPermission(req: Requester, verb: string): (granted: bool)
    ensures IsSafe(verb) ==> granted
    ensures !IsSafe(verb) ==> (granted <==> AdminOnlyHasPermission(req))
  {
    IsSafe(verb) || (req.Authenticated? && IsAdmin(req.user))
  }

  /** `AuthorModeratorAdminOrReadOnly._is_moderator_or_admin`. */
  function IsModeratorOrAdmin(req: Requester): (b: bool)
    ensures b <==> req.Authenticated? && (IsAdmin(req.user) || IsModerator(req.user))
  {
    req.Authenticated? && (IsAdmin(req.user) || IsModerator(req.user) || req.user.isSuperuser)
  }

  /** `AuthorModeratorAdminOrReadOnly.has_permission`. */
  function AuthorHasPermission(req: Requester, verb: string): (granted: bool)
    ensures granted <==> IsSafe(verb) || req.Authenticated?
  {
    IsSafe(verb) || req.Authenticated?
  }

  /** `AuthorModeratorAdminOrReadOnly.has_object_permission`, for a row written by
      `author`. An anonymous requester is never equal to a user row. */
  function AuthorHasObjectPermission(req: Requester, verb: string, author: nat): (granted: bool)
    ensures !IsSafe(verb) && req.Anonymous? ==> !granted
    ensures granted <==>
      || IsSafe(verb)
      || (req.Authenticated? && req.user.id == author)
      || (req.Authenticated? && (IsAdmin(req.user) || IsModerator(req.user)))
  {
    IsSafe(verb) || (req.Authenticated? && req.user.id == author) || IsModeratorOrAdmin(req)
  }

  datatype Policy = AdminOnly | AdminOrReadOnly | AuthorModeratorAdminOrReadOnly

  /** `has_permission` of the policy a view names. */
  function HasPermission(p: Policy, req: Requester, verb: string): bool {
    match p
    case AdminOnly => AdminOnlyHasPermission(req)
    case AdminOrReadOnly => AdminOrReadOnlyHasPermission(req, verb)
    case AuthorModeratorAdminOrReadOnly => AuthorHasPermission(req, verb)
  }

  /** `has_object_permission` of the policy; the two admin policies inherit True. */
  function HasObjectPermission(p: Policy, req: Requester, verb: string, author: nat): bool {
    match p
    case AdminOnly => true
    case AdminOrReadOnly => true
    case AuthorModeratorAdminOrReadOnly => AuthorHasObjectPermission(req, verb, author)
  }

  /** The framework's verdict on a request under policy `p`: the view-level check, and the
      object-level check when the request targets a row written by `target`. */
  function Allows(p: Policy, req: Requester, verb: string, target: Option<nat>): (granted: bool)
    ensures req.Anonymous? && !IsSafe(verb) ==> !granted
    ensures req.Authenticated? && IsAdmin(req.user) ==> granted
    ensures IsSafe(verb) && p != AdminOnly ==> granted
    ensures p == AdminOnly ==> (granted <==> req.Authenticated? && IsAdmin(req.user))
  {
    HasPermission(p, req, verb) && (target.None? || HasObjectPermission(p, req, verb, target.value))
  }

  /** The author of a row may change or delete it under the author policy, whatever role
      the author holds. */
  lemma AuthorMayEditOwn(u: User, verb: string)
    ensures Allows(AuthorModeratorAdminOrReadOnly, Authenticated(u), verb, Some(u.id))
  {
  }

  /** Under the author policy an authenticated requester may create (no target yet). */
  lemma AuthenticatedMayCreate(u: User, verb: string)
    ensures Allows(AuthorModeratorAdminOrReadOnly, Authenticated(u), verb, None)
  {
  }

  /** A plain user who did not write a row may read it but not change or delete it. */
  lemma OthersMayNotEdit(u: User, verb: string, author: nat)
    requires !IsAdmin(u) && !IsModerator(u)
    requires u.id != author
    ensures Allows(AuthorModeratorAdminOrReadOnly, Authenticated(u), verb, Some(author)) <==> IsSafe(verb)
  {
  }

  /** A moderator may change or delete any row under the author policy, but only read under
      the two admin policies. */
  lemma ModeratorTier(u: User, verb: string, author: nat)
    requires IsModerator(u) && !u.isSuperuser && !u.isStaff
    ensures Allows(AuthorModeratorAdminOrReadOnly, Authenticated(u), verb, Some(author))
    ensures Allows(AdminOrReadOnly, Authenticated(u), verb, Some(author)) <==> IsSafe(verb)
    ensures !Allows(AdminOnly, Authenticated(u), verb, Some(author))
  {
  }
}
