# yamdb rule layer in Dafny

yamdb is a review API: users sign up with a username and an email, receive a
confirmation code by mail, trade it for an access token, and then write
reviews of titles (books, films, songs) and comments on reviews. Titles sit in
categories and genres. Users have a role (`user`, `moderator`, `admin`), and
three permission classes decide who may read, create, change and delete what.

This project models the rule layer of that API and proves its properties:

- `tables.dfy` (module `Tables`): what the object-relational mapper offers —
  a table is a sequence of rows, a UNIQUE column is a key function no two rows
  share, `filter`/`get` are `Filter`/`FindBy`, a new primary key is
  `FreshKey`, one past the largest key in use.
- `config.dfy` (module `Config`): the settings the rules read (`LENG_*`
  lengths, `BANNED_NAMES`) as one `Settings` value.
- `users.dfy` (module `Users`): the user row, its roles, `is_admin`,
  `is_moderator`, the username alphabet, the table's UNIQUE constraints and
  `__str__`.
- `core.dfy` (module `Core`): the category/genre base model (unique name,
  unique slug, slug alphabet) and the truncating `__str__` of both base models.
- `validators.dfy` (module `Validators`): `validate_year`; the current year is
  a parameter.
- `reviews.dfy` (module `Reviews`): titles, genre links, reviews and comments;
  the score bounds and default, the year rule, `__str__` of a genre link.
- `store.dfy` (module `Store`): the database as a class with one sequence
  field per table, an invariant made of the database constraints (primary
  keys, UNIQUE columns, foreign keys, the non-negative CHECK of `Title.year`
  and `Review.score`), the inserts and the update the views
  issue, and the `on_delete` policies (SET_NULL for a title's category,
  CASCADE elsewhere, followed transitively as the framework does).
- `permissions.dfy` (module `Permissions`): `AdminOnly`, `AdminOrReadOnly`
  and `AuthorModeratorAdminOrReadOnly`, and the framework's combination of the
  view-level and object-level checks.
- `serializers.dfy` (module `Serializers`): the input checks — signup's
  identity rule and banned names, the token request, the review's score bounds
  and one-review-per-title rule, `UserSerializer`'s uniqueness checks, and the
  category/genre serializer.
- `views.dfy` (module `Views`): `signup`, `get_jwt_token`, `UserViewSet.me`,
  and the `get_queryset` / `perform_create` hooks of the review and comment
  viewsets, run against a `Store.Database`.

The clock, the email-format check and the confirmation-code generator are
parameters: the current year is an `int`, the email check a
`string -> bool`, the generator a pair of functions `make` and `check` of the
user row. A sent mail is returned as an outbox entry; an access token is
represented by the id of the user it is issued for.

Where the code and its documented behaviour differ, the model follows the code:

- The `role` column is declared with `blank=True`, so `UserSerializer` accepts
  an empty role as well as the three choices (`Users.IsRoleValue`).
- `ReviewSerializer` declares `score` as a required integer field, so a review
  posted without a score is refused; the default of 5 applies only to rows
  created at the model level (`Reviews.ModelScore`).
- `_is_moderator_or_admin` also tests `is_superuser`, but `is_admin` already
  covers it; `Permissions.IsModeratorOrAdmin` proves the disjunct redundant.
- Deleting a title or a user also deletes the comments on the reviews that go
  with it, because CASCADE is applied to every row it removes.

## Model

| member | source | states |
|---|---|---|
| Users.IsModerator | api_yamdb/users/models.py:72-74 | `is_moderator` holds exactly for the role `moderator` |
| Users.IsAdmin | api_yamdb/users/models.py:76-81 | `is_admin` holds exactly for the role `admin`, a superuser or a staff user |
| Users.IsUsername | api_yamdb/users/models.py:32-39 | a username is one or more characters from letters, digits and `@.+-_` |
| Users.Str | api_yamdb/users/models.py:83-84 | `__str__` is username, email and role joined by single spaces |
| Users.NewUser | api_yamdb/users/models.py:49-55 | a user created from a username and an email gets the default role `user`, a valid role, and is neither admin nor moderator |
| Users.FlagsMakeAdmin | api_yamdb/users/models.py:76-81 | a superuser or staff user is admin whatever the role says |
| Users.RoleDecidesTier | api_yamdb/users/models.py:72-81 | without the two flags a user is admin exactly when the role is `admin`, and a moderator is never admin |
| Users.UniqueUsernameGivesUniquePair | api_yamdb/users/models.py:63-70 | unique usernames already make the (username, email) pair unique |
| Users.StrStartsWithUsername | api_yamdb/users/models.py:83-84 | the text of `__str__` before its first space is the username |
| Users.StrIdentifiesUser | api_yamdb/users/models.py:83-84 | in a valid store two users with the same `__str__` are the same user |
| Core.IsSlug | api_yamdb/core/models.py:17-21 | `validate_slug` admits one or more letters, digits, hyphens and underscores |
| Core.CutShortIsWhole | api_yamdb/core/models.py:27-28 | a text no longer than LENG_CUT is shown whole |
| Core.GroupStr | api_yamdb/core/models.py:27-28 | a category's or genre's text is the prefix of its name of length min(length, LENG_CUT) |
| Core.TextStr | api_yamdb/core/models.py:45-46 | a review's or comment's text form is the prefix of its text of length min(length, LENG_CUT) |
| Validators.ValidateYear | api_yamdb/reviews/validators.py:10-16 | an error is raised exactly when the year is not before the current year, and it carries the year |
| Validators.CurrentYearRejected | api_yamdb/reviews/validators.py:12 | the current year itself is refused |
| Reviews.ModelScore | api_yamdb/reviews/models.py:106-116 | a given score is stored as given; a missing one becomes the field default 5 |
| Reviews.TitleYearValid | api_yamdb/reviews/models.py:52-55 | a release year is accepted exactly when it fits a positive small integer and is before the current year |
| Reviews.ReviewsOfTitle | api_yamdb/reviews/models.py:101-105 | the ids of exactly the reviews of a title |
| Reviews.ReviewsByAuthor | api_yamdb/reviews/models.py:117-121 | the ids of exactly the reviews written by a user |
| Reviews.TitleStr | api_yamdb/reviews/models.py:78-79 | a title's text is its name |
| Reviews.GenreTitleStr | api_yamdb/reviews/models.py:86-87 | the genre's text, one space, then the title's name |
| Store.Database.Valid | api_yamdb/reviews/models.py:47-149 | the database constraints: primary keys, the UNIQUE columns of users, categories and genres, `unique_review`, every foreign key pointing at an existing row, and a non-negative year and score |
| Store.Database.InsertUser | api_yamdb/users/models.py:32-70 | a user whose id, username and email are all unused is appended and the constraints still hold |
| Store.Database.UpdateUser | api_yamdb/users/models.py:32-70 | a row is replaced in place by one with the same id whose username and email no other row has, keeping the constraints |
| Store.Database.InsertReview | api_yamdb/reviews/models.py:106-129 | a review of an existing title by an existing user, with a non-negative score, in a free (title, author) slot, is appended and the constraints still hold |
| Store.Database.InsertComment | api_yamdb/reviews/models.py:142-149 | a comment on an existing review by an existing user is appended and the constraints still hold |
| Store.Database.DeleteCategory | api_yamdb/reviews/models.py:56-63 | the category goes, exactly the titles that pointed at it lose their category, every other title is unchanged |
| Store.Database.DeleteGenre | api_yamdb/reviews/models.py:82-84 | the genre and exactly its genre links go |
| Store.Database.DeleteTitle | api_yamdb/reviews/models.py:82-105 | the title, exactly its genre links, exactly its reviews and the comments on those reviews go; nothing else changes |
| Store.Database.DeleteReview | api_yamdb/reviews/models.py:142-145 | the review and exactly its comments go |
| Store.Database.DeleteUser | api_yamdb/reviews/models.py:117-149 | the user, exactly the user's reviews, the user's comments and the comments on the user's reviews go |
| Permissions.AdminOnlyHasPermission | api_yamdb/api/permissions.py:4-8 | granted exactly to an authenticated admin; an anonymous request is refused |
| Permissions.AdminOrReadOnlyHasPermission | api_yamdb/api/permissions.py:11-16 | a safe method is always granted; an unsafe one exactly when AdminOnly grants it |
| Permissions.IsModeratorOrAdmin | api_yamdb/api/permissions.py:20-27 | holds exactly for an authenticated admin or moderator: the superuser disjunct adds nothing |
| Permissions.AuthorHasPermission | api_yamdb/api/permissions.py:29-33 | granted exactly for a safe method or an authenticated requester |
| Permissions.AuthorHasObjectPermission | api_yamdb/api/permissions.py:35-40 | granted exactly for a safe method, the row's author, or an authenticated admin or moderator; never to an anonymous unsafe request |
| Permissions.Allows | api_yamdb/api/permissions.py:1-40 | under every policy an anonymous unsafe request is refused and an admin is let through, safe methods pass except under AdminOnly, and AdminOnly admits exactly admins |
| Permissions.AuthorMayEditOwn | api_yamdb/api/permissions.py:35-40 | the author may do anything to the author's own row, whatever the author's role |
| Permissions.AuthenticatedMayCreate | api_yamdb/api/permissions.py:29-33 | any authenticated user may create under the author policy |
| Permissions.OthersMayNotEdit | api_yamdb/api/permissions.py:35-40 | a plain user may only read a row someone else wrote |
| Permissions.ModeratorTier | api_yamdb/api/permissions.py:11-40 | a moderator may change any row under the author policy but only read under AdminOrReadOnly and nothing under AdminOnly |
| Serializers.UsernameFieldErrors | api_yamdb/api/serializers.py:140-146 | a signup username passes exactly when present, well formed and within LENG_DATA_USER |
| Serializers.EmailFieldErrors | api_yamdb/api/serializers.py:147-150 | a signup email passes exactly when present, not blank, within LENG_EMAIL, well formed and free of NUL characters |
| Serializers.ValidateUsername | api_yamdb/api/serializers.py:156-168 | a banned name is always refused; otherwise a username passes exactly when every stored user with it has the sent email |
| Serializers.ValidateEmail | api_yamdb/api/serializers.py:170-178 | an email passes exactly when every stored user with it has the sent username |
| Serializers.ValidateSignup | api_yamdb/api/serializers.py:139-178 | signup data is accepted exactly when both fields are well formed (the email free of NUL characters), the name is not banned and the pair is consistent with the stored users |
| Serializers.NewOrStoredPairPasses | api_yamdb/api/serializers.py:156-178 | a pair whose halves are both new, or which is a stored user's pair, is consistent |
| Serializers.StoredUsernameOtherEmailRejected | api_yamdb/api/serializers.py:161-167 | a stored username sent with a different email is refused |
| Serializers.ConsistentPairIsStoredOrNew | api_yamdb/api/serializers.py:156-178 | a consistent pair that is no stored user's has neither half in use |
| Serializers.SignupAcceptedAgain | api_yamdb/api/serializers.py:156-178 | after the accepted pair's user is stored, the store stays valid and the same signup is accepted again |
| Serializers.ValidateTokenRequest | api_yamdb/api/serializers.py:181-192 | a token request is accepted exactly when the username is present, not blank, within LENG_DATA_USER and free of NUL characters, and the code is present, not blank and free of NUL characters |
| Serializers.ScoreFieldErrors | api_yamdb/api/serializers.py:86 | a score passes exactly when it is sent and lies in 1..10 |
| Serializers.DefaultScorePassesValidators | api_yamdb/reviews/models.py:106-116 | a review created at the model level without a score gets 5, which passes the API's 1..10 bounds |
| Serializers.TextFieldErrors | api_yamdb/core/models.py:34-36 | a text passes exactly when present, not blank, within LENG_MAX and free of NUL characters |
| Serializers.ReviewFieldErrors | api_yamdb/api/serializers.py:79-90 | the review fields pass exactly when the text (present, not blank, within LENG_MAX, free of NUL characters) and the score (between 1 and 10) both pass |
| Serializers.ValidateReview | api_yamdb/api/serializers.py:92-108 | not found exactly when the title is missing; refused exactly when it is a POST and the author already reviewed that title; other methods pass |
| Serializers.UserUsernameErrors | api_yamdb/api/serializers.py:112-119 | the username passes exactly when it is left out of a partial update, or it is well formed, within LENG_DATA_USER and held by no other user |
| Serializers.UserEmailErrors | api_yamdb/api/serializers.py:120-125 | the email passes exactly when it is left out of a partial update, or it is not blank, within LENG_EMAIL, well formed, free of NUL characters and held by no other user |
| Serializers.UserOptionalErrors | api_yamdb/api/serializers.py:127-131 | first and last name within 150 characters, names and bio free of NUL characters, and a role among the choices or blank, exactly |
| Serializers.ValidateUserData | api_yamdb/api/serializers.py:111-136 | accepted exactly when the field checks and the (username, email) pair check pass; accepted data leaves the user with a username and an email no other user holds and a valid role |
| Serializers.InstanceNotTakenByOther | api_yamdb/api/serializers.py:111-125 | the uniqueness checks of an update never count the updated user's own values against it |
| Serializers.PairCheckImpliedByFieldChecks | api_yamdb/api/serializers.py:132-136 | a username no other user holds makes the pair check pass |
| Serializers.FieldChecksDecideUserData | api_yamdb/api/serializers.py:111-136 | the pair check never fires alone: a payload is accepted exactly when its field checks pass |
| Serializers.UserFromData | api_yamdb/users/models.py:49-55 | a created user has the sent username, email and role, the role `user` when none is sent, and neither framework flag |
| Serializers.AcceptedUserKeepsUsersValid | api_yamdb/api/serializers.py:111-136 | a user created from accepted data keeps every UNIQUE constraint of the users table and has a valid role |
| Serializers.GroupNameErrors | api_yamdb/core/models.py:13-16 | a name passes exactly when present, not blank, within LENG_MAX, free of NUL characters and unused |
| Serializers.GroupSlugErrors | api_yamdb/core/models.py:17-21 | a slug passes exactly when made of slug characters, within LENG_SLUG and unused |
| Serializers.ValidateGroup | api_yamdb/api/serializers.py:12-31 | a category or genre is accepted exactly when its name (present, not blank, within LENG_MAX, free of NUL characters, unused) and its slug (slug characters, within LENG_SLUG, unused) both pass |
| Serializers.AcceptedGroupKeepsTableValid | api_yamdb/core/models.py:13-21 | storing an accepted category or genre keeps its table's UNIQUE constraints |
| Views.Signup | api_yamdb/api/views.py:217-234 | invalid data: 400, no mail, store unchanged; valid data: 200, a user is inserted only when no user has exactly the pair, a user with the pair then exists and its code goes to that email, and the same request stays valid |
| Views.SignupTwice | api_yamdb/api/views.py:223-233 | repeating a signup answers as the first did and leaves the users table as one signup leaves it: unchanged when refused or when the pair is stored, else with exactly one new user |
| Views.GetJwtToken | api_yamdb/api/views.py:237-256 | 400 exactly on invalid data, 404 exactly for an unknown username, a token exactly when the code checks for that user, and the token is that user's |
| Views.MailedCodeIssuesToken | api_yamdb/api/views.py:245-251 | the code made for a stored user buys that user's token |
| Views.SignupThenToken | api_yamdb/api/views.py:217-256 | a refused signup mails nothing, so no token request follows; after an accepted one the mailed code buys a token for the user with that pair |
| Views.Patched | api_yamdb/api/views.py:203-211 | a patch keeps id, role and flags, takes every sent field and keeps every field not sent |
| Views.PatchKeepsTier | api_yamdb/api/views.py:210 | a payload asking for another role changes neither the role nor the admin or moderator tier |
| Views.Me | api_yamdb/api/views.py:194-214 | anonymous: refused; GET: the caller's row, store unchanged; PATCH: 400 and no change on invalid data, otherwise exactly the caller's row is patched with the role pinned |
| Views.ReviewsOf | api_yamdb/api/views.py:131-133 | 404 exactly when the title is missing, else exactly its reviews |
| Views.CommentsOf | api_yamdb/api/views.py:156-160 | 404 unless the review exists under that title, else exactly its comments |
| Views.CreateReview | api_yamdb/api/views.py:135-137 | created exactly when permitted, the fields pass and the title exists without a review by the requester; field errors and a second review by the same author on the title answer 400 (BadRequest), an anonymous requester is denied, and no other status occurs; the new review's author is the requester and its title the path's, and it is then listed under that title |
| Views.CreateComment | api_yamdb/api/views.py:162-166 | created exactly when permitted, the text passes and the path's review belongs to the path's title (404 otherwise); a bad text answers 400 (BadRequest), an anonymous requester is denied, and no other status occurs; the comment's author is the requester and it is then listed under that review |
| Views.CommentListed | api_yamdb/api/views.py:156-166 | a comment on a review of a title is listed under that title and review |
| Views.NoTitleNoReview | api_yamdb/api/views.py:163-165 | a missing title has no reviews, so the first 404 of comment creation is also the second's |

## Left out

- Users.IsUsername: the username alphabet is approximated by ASCII letters, digits and `_@.+-`; the validator's Unicode word characters beyond ASCII are not modelled.
- Serializers.EmailFieldErrors: the email format (the framework's EmailValidator) is the parameter `isEmail`, not a definition.
- Views.Me: verbs other than GET and PATCH are answered with MethodNotAllowed; the framework's handling of HEAD and OPTIONS on this action is not modelled.
- Views.GetJwtToken: the access token is the user id it is issued for; JWT encoding (RFC 7519) is not modelled.
- Views.Signup: the confirmation code comes from the `make` function of the generator parameter; the generator's hashing, timestamps and expiry are not modelled, and `Views.Sound` is the one property assumed of it: its codes are not empty, hold no NUL character, and pass its own check for the unchanged user row.
- Views.Signup: the lookup after the save is proved always to find the user, so its 404 branch is not modelled.
- Views.Signup: signup relies on `UserCreationSerializer` carrying no validator generated from the model's (username, email) constraint; a framework version that generated one would refuse a repeated signup.
- Denied stands for both 401 and 403; the framework's choice between them depends on authentication headers.
- Mail transport (`send_mail`, the sender address) is not modelled; a sent mail is an outbox entry.
- Views.Signup: sending always succeeds in the model. In the source `send_mail` runs with `fail_silently=False` after `serializer.save()`, so a transport failure answers 500 and leaves the new user stored with no code sent; the model has no such outcome.
- Serializers.NoNullChar: of the two validators the framework adds to every CharField, only ProhibitNullCharactersValidator is modelled; a Dafny `char` is a Unicode scalar value, so the surrogate code points that ProhibitSurrogateCharactersValidator refuses cannot be written as input.
- Error messages are not modelled: an error is its field and its kind, and the order of errors in the list is not promised.
- Whitespace trimming of text inputs by the serializer fields is not modelled.
- The `rating` average and ordering, filters, search and pagination are not modelled: they are database aggregation and query plumbing.
- Title creation and update (`TitleCreateSerializer`, slug lookups of category and genres) are not modelled beyond the year rule (`Reviews.TitleYearValid`).
- The generic list, retrieve, update and destroy handlers of the viewsets are framework mixins; the permission checks, the validators and the store operations they would call are modelled, the handlers themselves are not.
- Field validators are not part of the store invariant, because saving a row does not run them; the invariant is the database constraints, without the upper bound of the small integer column type.
- Tables.FreshKey: a new primary key is one past the largest key in use, so after the highest row of a table is deleted its id is handed out again; the database's auto-increment counter never reuses an id. Views.Signup, Views.CreateReview and Views.CreateComment inherit this, so a token issued for a deleted user would name a later user with the reused id.
- `ROLE_LENG`, `pub_date` and the `ordering` options are not modelled; the role choices are shorter than any sensible `ROLE_LENG`.
- The settings file is not part of this model: its values are a `Config.Settings` parameter.
- Concurrency and atomicity of the database are not modelled: each handler runs alone.
- The CSV import command, the admin configuration and the URL routing are not modelled.
