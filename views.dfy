/**
 * Views: the request handlers of api/views.py that carry rules of their own.
 *
 * `signup` and `get_jwt_token` are the account flow, `UserViewSet.me` is a
 * user's own profile, and the `perform_create` / `get_queryset` hooks of the
 * review and comment viewsets create and list child rows under their parents.
 * Each handler runs against a Store.Database and answers with a status; the
 * mail it sends is returned as an outbox. The confirmation-code generator
 * (the framework's default_token_generator) is a parameter, and an access
 * token is represented by the id of the user it is issued for.
 */
module Views {
  import opened Tables
  import opened Config
  import opened Users
  import opened Reviews
  import opened Permissions
  import opened Serializers
  import opened Store

  /** The answer's HTTP status; Denied stands for 401 and 403 alike. */
  datatype Status = Ok | Created | BadRequest | Denied | NotFound | MethodNotAllowed

  /** `default_token_generator`: `make_token` and `check_token`, functions of the user row. */
  datatype CodeGenerator = CodeGenerator(make: User -> string, check: (User, string) -> bool)

  /** The generator accepts the codes it makes for an unchanged user row, and they are
      never empty and hold no NUL character (they are a base-36 timestamp and a hex
      digest). */
  ghost predicate Sound(gen: CodeGenerator) {
    forall u :: gen.make(u) != "" && NoNullChar(gen.make(u)) && gen.check(u, gen.make(u))
  }

  /** A mail `mail_confirmation` sends: the code, to the user's address. */
  datatype Mail = Mail(recipient: string, code: string)

  // ------------------------------------------------------------------ signup

  /** `signup`: validate the pair, insert a user only when no user has exactly that pair,
      then mail a confirmation code to the user with that pair. */
  method Signup(db: Database, cfg: Settings, isEmail: string -> bool, gen: CodeGenerator,
                username: Option<string>, email: Option<string>) returns (status: Status, outbox: seq<Mail>)
    requires db.Valid()
    modifies db`users
    ensures db.Valid()
    ensures ValidateSignup(old(db.users), cfg, isEmail, username, email).Rejected? ==>
      status == BadRequest && outbox == [] && db.users == old(db.users)
    ensures ValidateSignup(old(db.users), cfg, isEmail, username, email).Accepted? ==>
      && status == Ok
      && ((exists u :: u in old(db.users) && Identity(u) == (username.value, email.value)) ==>
            db.users == old(db.users))
      && ((forall u :: u in old(db.users) ==> Identity(u) != (username.value, email.value)) ==>
            db.users == old(db.users) + [NewUser(FreshKey(old(db.users), UserId), username.value, email.value)])
      && (exists u :: u in db.users && Identity(u) == (username.value, email.value) &&
            outbox == [Mail(email.value, gen.make(u))])
      && ValidateSignup(db.users, cfg, isEmail, username, email).Accepted?
  {
    var checked := ValidateSignup(db.users, cfg, isEmail, username, email);
    if checked.Rejected? {
      return BadRequest, [];
    }
    var (name, address) := checked.value;
    if FindBy(db.users, Identity, (name, address)).None? {
      var id := FreshKey(db.users, UserId);
      ConsistentPairIsStoredOrNew(db.users, name, address);
      SignupAcceptedAgain(db.users, cfg, isEmail, name, address, id);
      db.InsertUser(NewUser(id, name, address));
    }
    var user := FindBy(db.users, Identity, (name, address));
    assert user.Some? by {
      var n := NewUser(FreshKey(old(db.users), UserId), name, address);
      if db.users != old(db.users) { assert n in db.users; }
    }
    status, outbox := Ok, [Mail(user.value.email, gen.make(user.value))];
  }

  /** Signing up twice with the same pair: the second request is answered like the first
      and leaves the users table as the first left it. */
  method SignupTwice(db: Database, cfg: Settings, isEmail: string -> bool, gen: CodeGenerator,
                     username: Option<string>, email: Option<string>) returns (first: Status, second: Status)
    requires db.Valid()
    modifies db`users
    ensures first == second
    ensures ValidateSignup(old(db.users), cfg, isEmail, username, email).Rejected? ==>
      first == BadRequest && db.users == old(db.users)
    ensures ValidateSignup(old(db.users), cfg, isEmail, username, email).Accepted? ==>
      && first == Ok
      && ((exists u :: u in old(db.users) && Identity(u) == (username.value, email.value)) ==>
            db.users == old(db.users))
      && ((forall u :: u in old(db.users) ==> Identity(u) != (username.value, email.value)) ==>
            db.users == old(db.users) + [NewUser(FreshKey(old(db.users), UserId), username.value, email.value)])
  {
    var mails;
    first, mails := Signup(db, cfg, isEmail, gen, username, email);
    ghost var between := db.users;
    second, mails := Signup(db, cfg, isEmail, gen, username, email);
    assert db.users == between;
  }

  // --------------------------------------------------------------- get token

  /** The answers of `get_jwt_token`. */
  datatype TokenReply =
    | InvalidRequest(errors: seq<FieldError>)  // 400, the payload's field errors
    | NoSuchUser                               // 404
    | Issued(forUser: nat)                     // 200, an access token for that user
    | WrongCode                                // 400, no token

  /** `get_jwt_token`: a read-only lookup of the user by username and a check of the code. */
  function GetJwtToken(users: seq<User>, cfg: Settings, gen: CodeGenerator,
                       username: Option<string>, code: Option<string>): (r: TokenReply)
    requires UniqueBy(users, Username)
    ensures r.InvalidRequest? <==> ValidateTokenRequest(cfg, username, code).Rejected?
    ensures r.NoSuchUser? <==>
      ValidateTokenRequest(cfg, username, code).Accepted? && username.value !in KeySet(users, Username)
    ensures r.Issued? <==>
      && ValidateTokenRequest(cfg, username, code).Accepted?
      && exists u :: u in users && u.username == username.value && gen.check(u, code.value)
    ensures r.Issued? ==> exists u :: u in users && u.id == r.forUser && u.username == username.value
  {
    match ValidateTokenRequest(cfg, username, code)
    case Rejected(errs) => InvalidRequest(errs)
    case Accepted((name, confirmation)) =>
      match FindBy(users, Username, name)
      case None => NoSuchUser
      case Some(user) =>
        UniqueRowFound(users, Username, user);
        if gen.check(user, confirmation) then Issued(user.id) else WrongCode
  }

  /** The code mailed for a stored user buys that user a token, as long as the generator
      accepts its own codes. */
  lemma MailedCodeIssuesToken(users: seq<User>, cfg: Settings, gen: CodeGenerator, u: User)
    requires UsersValid(users) && u in users
    requires Sound(gen)
    requires u.username != "" && |u.username| <= cfg.lengDataUser && NoNullChar(u.username)
    ensures GetJwtToken(users, cfg, gen, Some(u.username), Some(gen.make(u))) == Issued(u.id)
  {
    FindByUnique(users, Username, u);
    assert gen.make(u) != "" && NoNullChar(gen.make(u)) && gen.check(u, gen.make(u));
  }

  /** Signing up and sending back the mailed code yields a token for the user with that
      pair; a refused signup sends no mail, so no token request follows (None). */
  method SignupThenToken(db: Database, cfg: Settings, isEmail: string -> bool, gen: CodeGenerator,
                         username: string, email: string) returns (reply: Option<TokenReply>)
    requires db.Valid()
    requires Sound(gen)
    modifies db`users
    ensures reply.None? <==> ValidateSignup(old(db.users), cfg, isEmail, Some(username), Some(email)).Rejected?
    ensures reply.Some? ==>
      exists u :: u in db.users && Identity(u) == (username, email) && reply.value == Issued(u.id)
  {
    var status, outbox := Signup(db, cfg, isEmail, gen, Some(username), Some(email));
    if status != Ok {
      return None;
    }
    reply := Some(GetJwtToken(db.users, cfg, gen, Some(username), Some(outbox[0].code)));
    ghost var u :| u in db.users && Identity(u) == (username, email) && outbox == [Mail(email, gen.make(u))];
    MailedCodeIssuesToken(db.users, cfg, gen, u);
  }

  // ---------------------------------------------------------------------- me

  /** The row `serializer.save(role=request.user.role)` writes for a valid partial
      payload: every field sent replaces the stored one, except the role, which stays. */
  function Patched(u: User, d: UserData): (p: User)
    ensures p.id == u.id && p.role == u.role
    ensures p.isSuperuser == u.isSuperuser && p.isStaff == u.isStaff
    ensures Identity(p) == ResultIdentity(Some(u), d)
    ensures d.firstName.Some? ==> p.firstName == d.firstName.value
    ensures d.firstName.None? ==> p.firstName == u.firstName
    ensures d.lastName.Some? ==> p.lastName == d.lastName.value
    ensures d.lastName.None? ==> p.lastName == u.lastName
    ensures d.bio.Some? ==> p.bio == d.bio.value
    ensures d.bio.None? ==> p.bio == u.bio
  {
    u.(
      username := if d.username.Some? then d.username.value else u.username,
      email := if d.email.Some? then d.email.value else u.email,
      firstName := if d.firstName.Some? then d.firstName.value else u.firstName,
      lastName := if d.lastName.Some? then d.lastName.value else u.lastName,
      bio := if d.bio.Some? then d.bio.value else u.bio
    )
  }

  /** Whatever role a payload asks for, `me` leaves the caller's tier where it was. */
  lemma PatchKeepsTier(u: User, d: UserData)
    requires d.role.Some? && d.role.value != u.role
    ensures Patched(u, d).role != d.role.value
    ensures IsAdmin(Patched(u, d)) == IsAdmin(u) && IsModerator(Patched(u, d)) == IsModerator(u)
  {
  }

  /** `UserViewSet.me`: GET answers with the caller's row; PATCH validates a partial
      payload against the caller's row and saves it with the role pinned. */
  method Me(db: Database, cfg: Settings, isEmail: string -> bool, req: Requester, verb: string, d: UserData)
    returns (status: Status, body: Option<User>)
    requires db.Valid()
    requires req.Authenticated? ==> req.user in db.users
    modifies db`users
    ensures db.Valid()
    ensures req.Anonymous? ==> status == Denied && body == None && db.users == old(db.users)
    ensures req.Authenticated? && verb == "GET" ==>
      status == Ok && body == Some(req.user) && db.users == old(db.users)
    ensures req.Authenticated? && verb != "GET" && verb != "PATCH" ==>
      status == MethodNotAllowed && body == None && db.users == old(db.users)
    ensures (req.Authenticated? && verb == "PATCH" &&
             ValidateUserData(old(db.users), cfg, isEmail, Some(req.user), d, true).Rejected?) ==>
      status == BadRequest && body == None && db.users == old(db.users)
    ensures (req.Authenticated? && verb == "PATCH" &&
             ValidateUserData(old(db.users), cfg, isEmail, Some(req.user), d, true).Accepted?) ==>
      && status == Ok && body == Some(Patched(req.user, d))
      && |db.users| == |old(db.users)|
      && (forall i :: 0 <= i < |db.users| ==>
            db.users[i] == if old(db.users)[i] == req.user then Patched(req.user, d) else old(db.users)[i])
  {
    if req.Anonymous? {
      return Denied, None;
    }
    if verb == "GET" {
      return Ok, Some(req.user);
    }
    if verb != "PATCH" {
      return MethodNotAllowed, None;
    }
    var me := req.user;
    var checked := ValidateUserData(db.users, cfg, isEmail, Some(me), d, true);
    if checked.Rejected? {
      return BadRequest, None;
    }
    var i := IndexOf(db.users, me);
    var p := Patched(me, d);
    forall j | 0 <= j < |db.users| && j != i
      ensures db.users[j].username != p.username && db.users[j].email != p.email && db.users[j] != me
    {
      assert UserId(db.users[j]) != UserId(db.users[i]) by {
        if j < i { assert UniqueBy(db.users, UserId); } else { assert UniqueBy(db.users, UserId); }
      }
      assert db.users[j] in db.users;
    }
    db.UpdateUser(i, p);
    status, body := Ok, Some(p);
  }

  // ------------------------------------------------------- reviews, comments

  /** `ReviewViewSet.get_queryset`: 404 (None) when the path's title does not exist, else
      the title's reviews. */
  function ReviewsOf(titles: seq<Title>, reviews: seq<Review>, titleId: nat): (r: Option<seq<Review>>)
    ensures r.None? <==> titleId !in KeySet(titles, TitleId)
    ensures r.Some? ==> forall x :: x in r.value <==> x in reviews && x.title == titleId
  {
    if FindBy(titles, TitleId, titleId).None? then None
    else Some(Filter(reviews, (x: Review) => x.title == titleId))
  }

  /** `CommentViewSet.get_queryset`: 404 (None) unless review `reviewId` exists and belongs
      to title `titleId`, else that review's comments. */
  function CommentsOf(reviews: seq<Review>, comments: seq<Comment>, titleId: nat, reviewId: nat): (r: Option<seq<Comment>>)
    ensures r.None? <==> forall x :: x in reviews ==> !(x.id == reviewId && x.title == titleId)
    ensures r.Some? ==> forall c :: c in r.value <==> c in comments && c.review == reviewId
  {
    if FindBy(reviews, ReviewSlotOf, (reviewId, titleId)).None? then None
    else Some(Filter(comments, (c: Comment) => c.review == reviewId))
  }

  /** The pair `get_object_or_404(Review, id=..., title=...)` looks up. */
  function ReviewSlotOf(r: Review): (nat, nat) { (r.id, r.title) }

  /** `ReviewViewSet` create: the permission check, the serializer's field checks and
      `validate`, then `perform_create` saving the review with the requester as author
      and the path's title. */
  method CreateReview(db: Database, cfg: Settings, req: Requester, titleId: nat,
                      text: Option<string>, score: Option<int>) returns (status: Status)
    requires db.Valid()
    requires req.Authenticated? ==> req.user in db.users
    modifies db`reviews
    ensures db.Valid()
    ensures status == Created <==>
      && HasPermission(AuthorModeratorAdminOrReadOnly, req, "POST")
      && ReviewFieldErrors(cfg, text, score) == []
      && ValidateReview(old(db.reviews), db.titles, req.user.id, titleId, "POST") == ReviewPasses
    ensures status != Created ==> db.reviews == old(db.reviews)
    ensures req.Anonymous? ==> status == Denied
    ensures status == NotFound <==>
      req.Authenticated? && ReviewFieldErrors(cfg, text, score) == [] && titleId !in KeySet(db.titles, TitleId)
    ensures req.Authenticated? && ReviewFieldErrors(cfg, text, score) != [] ==> status == BadRequest
    ensures req.Authenticated? && ReviewFieldErrors(cfg, text, score) == [] &&
            ValidateReview(old(db.reviews), db.titles, req.user.id, titleId, "POST") == AlreadyReviewed
            ==> status == BadRequest
    ensures status in {Denied, BadRequest, NotFound, Created}
    ensures status == Created ==>
      && db.reviews == old(db.reviews) + [Review(FreshKey(old(db.reviews), ReviewId), text.value, titleId, score.value, req.user.id)]
      && ReviewsOf(db.titles, db.reviews, titleId).Some?
      && db.reviews[|db.reviews| - 1] in ReviewsOf(db.titles, db.reviews, titleId).value
  {
    if !HasPermission(AuthorModeratorAdminOrReadOnly, req, "POST") {
      return Denied;
    }
    if ReviewFieldErrors(cfg, text, score) != [] {
      return BadRequest;
    }
    match ValidateReview(db.reviews, db.titles, req.user.id, titleId, "POST")
    case TitleMissing => return NotFound;
    case AlreadyReviewed => return BadRequest;
    case ReviewPasses =>
      var id := FreshKey(db.reviews, ReviewId);
      var r := Review(id, text.value, titleId, score.value, req.user.id);
      assert req.user in db.users;
      db.InsertReview(r);
      status := Created;
  }

  /** `CommentViewSet` create: the permission check, the text field, then `perform_create`
      finding the path's title and, among its reviews, the path's review, and saving the
      comment with the requester as author. */
  method CreateComment(db: Database, cfg: Settings, req: Requester, titleId: nat, reviewId: nat,
                       text: Option<string>) returns (status: Status)
    requires db.Valid()
    requires req.Authenticated? ==> req.user in db.users
    modifies db`comments
    ensures db.Valid()
    ensures status == Created <==>
      && HasPermission(AuthorModeratorAdminOrReadOnly, req, "POST")
      && TextFieldErrors(cfg, text) == []
      && exists r :: r in db.reviews && r.id == reviewId && r.title == titleId
    ensures status != Created ==> db.comments == old(db.comments)
    ensures req.Anonymous? ==> status == Denied
    ensures status == NotFound <==>
      && req.Authenticated? && TextFieldErrors(cfg, text) == []
      && forall r :: r in db.reviews ==> !(r.id == reviewId && r.title == titleId)
    ensures req.Authenticated? && TextFieldErrors(cfg, text) != [] ==> status == BadRequest
    ensures status in {Denied, BadRequest, NotFound, Created}
    ensures status == Created ==>
      && db.comments == old(db.comments) + [Comment(FreshKey(old(db.comments), CommentId), text.value, reviewId, req.user.id)]
      && CommentsOf(db.reviews, db.comments, titleId, reviewId).Some?
      && db.comments[|db.comments| - 1] in CommentsOf(db.reviews, db.comments, titleId, reviewId).value
  {
    if !HasPermission(AuthorModeratorAdminOrReadOnly, req, "POST") {
      return Denied;
    }
    if TextFieldErrors(cfg, text) != [] {
      return BadRequest;
    }
    if FindBy(db.titles, TitleId, titleId).None? {
      NoTitleNoReview(db, titleId, reviewId);
      return NotFound;
    }
    var ofTitle := Filter(db.reviews, (r: Review) => r.title == titleId);
    var found := FindBy(ofTitle, ReviewId, reviewId);
    if found.None? {
      forall r | r in db.reviews && r.title == titleId ensures r.id != reviewId {
        assert r in ofTitle;
      }
      return NotFound;
    }
    var review := found.value;
    assert review in db.reviews && review.id == reviewId && review.title == titleId;
    var id := FreshKey(db.comments, CommentId);
    var c := Comment(id, text.value, reviewId, req.user.id);
    db.InsertComment(c);
    CommentListed(db.reviews, db.comments, titleId, review, c);
    status := Created;
  }

  /** A comment on a review of the title is listed under that title and review. */
  lemma CommentListed(reviews: seq<Review>, comments: seq<Comment>, titleId: nat, review: Review, c: Comment)
    requires review in reviews && review.title == titleId
    requires c in comments && c.review == review.id
    ensures CommentsOf(reviews, comments, titleId, review.id).Some?
    ensures c in CommentsOf(reviews, comments, titleId, review.id).value
  {
  }

  /** A review belongs to an existing title, so a missing title has no reviews. */
  lemma NoTitleNoReview(db: Database, titleId: nat, reviewId: nat)
    requires db.Valid()
    requires titleId !in KeySet(db.titles, TitleId)
    ensures forall r :: r in db.reviews ==> !(r.id == reviewId && r.title == titleId)
  {
  }
}
