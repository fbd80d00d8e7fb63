/**
 * Store: the database the views work on.
 *
 * One sequence of rows per table. Valid() is what the database itself
 * enforces: primary keys, the UNIQUE columns and constraints of the models,
 * every foreign key pointing at an existing row, and the non-negative CHECK
 * of the positive small integer columns (Title.year, Review.score). The delete methods carry
 * out the `on_delete` policies of reviews/models.py, transitively, as the
 * mapper's collector does: SET_NULL on Title.category, CASCADE everywhere else.
 * The insert and update methods are the writes the views issue; their
 * preconditions are the constraints the database would otherwise refuse.
 */
module Store {
  import opened Tables
  import opened Users
  import opened Core
  import opened Reviews

  /** Title rows: unique primary key; the year is not negative; a category, when set,
      exists. */
  predicate TitlesValid(titles: seq<Title>, categories: seq<Group>) {
    && UniqueBy(titles, TitleId)
    && (forall t :: t in titles ==> t.year >= 0)
    && forall t :: t in titles && t.category.Some? ==> t.category.value in KeySet(categories, GroupId)
  }

  /** GenreTitle rows: unique primary key; both ends exist. */
  predicate LinksValid(links: seq<GenreTitle>, titles: seq<Title>, genres: seq<Group>) {
    && UniqueBy(links, LinkId)
    && forall l :: l in links ==> l.title in KeySet(titles, TitleId) && l.genre in KeySet(genres, GroupId)
  }

  /** Review rows: unique primary key, `unique_review` on (title, author); the score is
      not negative; title and author exist. */
  predicate ReviewsValid(reviews: seq<Review>, titles: seq<Title>, users: seq<User>) {
    && UniqueBy(reviews, ReviewId)
    && (forall r :: r in reviews ==> r.score >= 0)
    && UniqueBy(reviews, ReviewSlot)
    && forall r :: r in reviews ==> r.title in KeySet(titles, TitleId) && r.author in KeySet(users, UserId)
  }

  /** Comment rows: unique primary key; review and author exist. */
  predicate CommentsValid(comments: seq<Comment>, reviews: seq<Review>, users: seq<User>) {
    && UniqueBy(comments, CommentId)
    && forall c :: c in comments ==> c.review in KeySet(reviews, ReviewId) && c.author in KeySet(users, UserId)
  }

  /** The titles after SET_NULL of category `id`: the same rows, those pointing at `id`
      without a category. */
  function ClearCategory(titles: seq<Title>, id: nat): (ts: seq<Title>)
    ensures |ts| == |titles|
    ensures forall i :: 0 <= i < |ts| ==>
      ts[i] == if titles[i].category == Some(id) then titles[i].(category := None) else titles[i]
  {
    seq(|titles|, i requires 0 <= i < |titles| =>
      if titles[i].category == Some(id) then titles[i].(category := None) else titles[i])
  }

  /** SET_NULL keeps the title constraints against the categories that remain. */
  lemma ClearCategoryKeepsTitles(titles: seq<Title>, categories: seq<Group>, cs: seq<Group>, id: nat)
    requires TitlesValid(titles, categories)
    requires forall g :: g in cs <==> g in categories && g.id != id
    ensures TitlesValid(ClearCategory(titles, id), cs)
  {
    var ts := ClearCategory(titles, id);
    forall i, j | 0 <= i < j < |ts| ensures TitleId(ts[i]) != TitleId(ts[j]) {
      assert TitleId(titles[i]) != TitleId(titles[j]);
    }
    forall t | t in ts ensures t.year >= 0 {
      var j :| 0 <= j < |ts| && ts[j] == t;
      assert titles[j] in titles;
    }
    forall t | t in ts && t.category.Some? ensures t.category.value in KeySet(cs, GroupId) {
      var j :| 0 <= j < |ts| && ts[j] == t;
      assert titles[j] in titles && titles[j].category == t.category;
      var g :| g in categories && g.id == t.category.value;
      assert g in cs;
    }
  }

  /** SET_NULL keeps the set of title ids. */
  lemma ClearCategoryKeepsIds(titles: seq<Title>, id: nat)
    ensures KeySet(ClearCategory(titles, id), TitleId) == KeySet(titles, TitleId)
  {
    var ts := ClearCategory(titles, id);
    forall k | k in KeySet(titles, TitleId) ensures k in KeySet(ts, TitleId) {
      var x :| x in titles && x.id == k;
      var j :| 0 <= j < |titles| && titles[j] == x;
      assert ts[j] in ts && TitleId(ts[j]) == k;
    }
    forall k | k in KeySet(ts, TitleId) ensures k in KeySet(titles, TitleId) {
      var x :| x in ts && x.id == k;
      var j :| 0 <= j < |ts| && ts[j] == x;
      assert titles[j] in titles && titles[j].id == k;
    }
  }

  /** The titles left after deleting title `id` still carry every other title id. */
  lemma RemainingTitlesKeepKeys(titles: seq<Title>, ts: seq<Title>, id: nat)
    requires forall t :: t in ts <==> t in titles && t.id != id
    ensures forall k :: k in KeySet(titles, TitleId) && k != id ==> k in KeySet(ts, TitleId)
  {
    forall k | k in KeySet(titles, TitleId) && k != id ensures k in KeySet(ts, TitleId) {
      var t :| t in titles && t.id == k;
      assert t in ts;
    }
  }

  class Database {
    var users: seq<User>
    var categories: seq<Group>
    var genres: seq<Group>
    var titles: seq<Title>
    var genreTitles: seq<GenreTitle>
    var reviews: seq<Review>
    var comments: seq<Comment>

    /** The database constraints. */
    ghost predicate Valid()
      reads this
    {
      && UsersValid(users)
      && GroupsValid(categories)
      && GroupsValid(genres)
      && TitlesValid(titles, categories)
      && LinksValid(genreTitles, titles, genres)
      && ReviewsValid(reviews, titles, users)
      && CommentsValid(comments, reviews, users)
    }

    constructor ()
      ensures Valid()
      ensures users == [] && categories == [] && genres == [] && titles == []
      ensures genreTitles == [] && reviews == [] && comments == []
    {
      users, categories, genres, titles := [], [], [], [];
      genreTitles, reviews, comments := [], [], [];
    }

    /** INSERT INTO users: the primary key, username and email must be new. */
    method InsertUser(u: User)
      requires Valid()
      requires u.id !in KeySet(users, UserId)
      requires u.username !in KeySet(users, Username)
      requires u.email !in KeySet(users, Email)
      modifies this`users
      ensures Valid()
      ensures users == old(users) + [u]
    {
      assert Identity(u) !in KeySet(users, Identity);
      AppendKeepsUnique(users, u, UserId);
      AppendKeepsUnique(users, u, Username);
      AppendKeepsUnique(users, u, Email);
      AppendKeepsUnique(users, u, Identity);
      users := users + [u];
    }

    /** UPDATE users at row `i`: the primary key stays, and no other row may carry the
        new username or email. */
    method UpdateUser(i: nat, u: User)
      requires Valid()
      requires i < |users| && u.id == users[i].id
      requires forall j :: 0 <= j < |users| && j != i ==> users[j].username != u.username
      requires forall j :: 0 <= j < |users| && j != i ==> users[j].email != u.email
      modifies this`users
      ensures Valid()
      ensures users == old(users)[i := u]
    {
      var s := users[i := u];
      ReplaceKeepsUnique(users, i, u, UserId);
      ReplaceKeepsUnique(users, i, u, Username);
      ReplaceKeepsUnique(users, i, u, Email);
      ReplaceKeepsUnique(users, i, u, Identity);
      assert KeySet(s, UserId) == KeySet(users, UserId) by {
        forall k | k in KeySet(users, UserId) ensures k in KeySet(s, UserId) {
          var x :| x in users && x.id == k;
          var j :| 0 <= j < |users| && users[j] == x;
          assert s[j].id == k;
        }
        forall k | k in KeySet(s, UserId) ensures k in KeySet(users, UserId) {
          var x :| x in s && x.id == k;
          var j :| 0 <= j < |s| && s[j] == x;
          assert users[j].id == k;
        }
      }
      users := s;
    }

    /** INSERT INTO reviews: a new primary key, a free (title, author) pair and existing
        targets. */
    method InsertReview(r: Review)
      requires Valid()
      requires r.id !in KeySet(reviews, ReviewId)
      requires ReviewSlot(r) !in KeySet(reviews, ReviewSlot)
      requires r.score >= 0
      requires r.title in KeySet(titles, TitleId) && r.author in KeySet(users, UserId)
      modifies this`reviews
      ensures Valid()
      ensures reviews == old(reviews) + [r]
    {
      AppendKeepsUnique(reviews, r, ReviewId);
      AppendKeepsUnique(reviews, r, ReviewSlot);
      reviews := reviews + [r];
    }

    /** INSERT INTO comments: a new primary key and existing targets. */
    method InsertComment(c: Comment)
      requires Valid()
      requires c.id !in KeySet(comments, CommentId)
      requires c.review in KeySet(reviews, ReviewId) && c.author in KeySet(users, UserId)
      modifies this`comments
      ensures Valid()
      ensures comments == old(comments) + [c]
    {
      AppendKeepsUnique(comments, c, CommentId);
      comments := comments + [c];
    }

    /** Deleting a category: the row goes, and every title that pointed at it loses its
        category (SET_NULL); nothing else changes. */
    method DeleteCategory(id: nat)
      requires Valid()
      modifies this`categories, this`titles
      ensures Valid()
      ensures forall g :: g in categories <==> g in old(categories) && g.id != id
      ensures |titles| == |old(titles)|
      ensures forall i :: 0 <= i < |titles| ==>
        titles[i] == if old(titles)[i].category == Some(id) then old(titles)[i].(category := None) else old(titles)[i]
    {
      var keep := (g: Group) => g.id != id;
      var cs := Filter(categories, keep);
      FilterKeepsUnique(categories, keep, GroupId);
      FilterKeepsUnique(categories, keep, GroupName);
      FilterKeepsUnique(categories, keep, GroupSlug);
      var ts := ClearCategory(titles, id);
      ClearCategoryKeepsTitles(titles, categories, cs, id);
      ClearCategoryKeepsIds(titles, id);
      categories, titles := cs, ts;
    }

    /** Deleting a genre: the row and its GenreTitle links go; nothing else changes. */
    method DeleteGenre(id: nat)
      requires Valid()
      modifies this`genres, this`genreTitles
      ensures Valid()
      ensures forall g :: g in genres <==> g in old(genres) && g.id != id
      ensures forall l :: l in genreTitles <==> l in old(genreTitles) && l.genre != id
    {
      var keep := (g: Group) => g.id != id;
      var keepLink := (l: GenreTitle) => l.genre != id;
      var gs, ls := Filter(genres, keep), Filter(genreTitles, keepLink);
      FilterKeepsUnique(genres, keep, GroupId);
      FilterKeepsUnique(genres, keep, GroupName);
      FilterKeepsUnique(genres, keep, GroupSlug);
      assert LinksValid(ls, titles, gs) by {
        FilterKeepsUnique(genreTitles, keepLink, LinkId);
        forall l | l in ls ensures l.title in KeySet(titles, TitleId) && l.genre in KeySet(gs, GroupId) {
          var g :| g in genres && g.id == l.genre;
          assert keep(g);
        }
      }
      genres, genreTitles := gs, ls;
    }

    /** Deleting a title: the row, its GenreTitle links, its reviews and the comments on
        those reviews go (CASCADE); nothing else changes. */
    method DeleteTitle(id: nat)
      requires Valid()
      modifies this`titles, this`genreTitles, this`reviews, this`comments
      ensures Valid()
      ensures forall t :: t in titles <==> t in old(titles) && t.id != id
      ensures forall l :: l in genreTitles <==> l in old(genreTitles) && l.title != id
      ensures forall r :: r in reviews <==> r in old(reviews) && r.title != id
      ensures forall c :: c in comments <==> c in old(comments) && c.review !in ReviewsOfTitle(old(reviews), id)
    {
      var gone := ReviewsOfTitle(reviews, id);
      var keepTitle := (t: Title) => t.id != id;
      var keepLink := (l: GenreTitle) => l.title != id;
      var keepReview := (r: Review) => r.title != id;
      var keepComment := (c: Comment) => c.review !in gone;
      var ts, ls := Filter(titles, keepTitle), Filter(genreTitles, keepLink);
      var rs, cs := Filter(reviews, keepReview), Filter(comments, keepComment);
      assert TitlesValid(ts, categories) by {
        FilterKeepsUnique(titles, keepTitle, TitleId);
      }
      FilterKeepsUnique(genreTitles, keepLink, LinkId);
      FilterKeepsUnique(reviews, keepReview, ReviewId);
      FilterKeepsUnique(reviews, keepReview, ReviewSlot);
      RemainingTitlesKeepKeys(titles, ts, id);
      assert LinksValid(ls, ts, genres);
      assert ReviewsValid(rs, ts, users);
      assert CommentsValid(cs, rs, users) by {
        FilterKeepsUnique(comments, keepComment, CommentId);
        forall c | c in cs ensures c.review in KeySet(rs, ReviewId) && c.author in KeySet(users, UserId) {
          var r :| r in reviews && r.id == c.review;
          assert keepReview(r);
        }
      }
      titles, genreTitles, reviews, comments := ts, ls, rs, cs;
    }

    /** Deleting a review: the row and its comments go (CASCADE); nothing else changes. */
    method DeleteReview(id: nat)
      requires Valid()
      modifies this`reviews, this`comments
      ensures Valid()
      ensures forall r :: r in reviews <==> r in old(reviews) && r.id != id
      ensures forall c :: c in comments <==> c in old(comments) && c.review != id
    {
      var keepReview := (r: Review) => r.id != id;
      var keepComment := (c: Comment) => c.review != id;
      var rs, cs := Filter(reviews, keepReview), Filter(comments, keepComment);
      assert ReviewsValid(rs, titles, users) by {
        FilterKeepsUnique(reviews, keepReview, ReviewId);
        FilterKeepsUnique(reviews, keepReview, ReviewSlot);
      }
      assert CommentsValid(cs, rs, users) by {
        FilterKeepsUnique(comments, keepComment, CommentId);
        forall c | c in cs ensures c.review in KeySet(rs, ReviewId) && c.author in KeySet(users, UserId) {
          var r :| r in reviews && r.id == c.review;
          assert keepReview(r);
        }
      }
      reviews, comments := rs, cs;
    }

    /** Deleting a user: the row, the user's reviews, the comments on those reviews and the
        user's own comments go (CASCADE); nothing else changes. */
    method DeleteUser(id: nat)
      requires Valid()
      modifies this`users, this`reviews, this`comments
      ensures Valid()
      ensures forall u :: u in users <==> u in old(users) && u.id != id
      ensures forall r :: r in reviews <==> r in old(reviews) && r.author != id
      ensures forall c :: c in comments <==>
        c in old(comments) && c.author != id && c.review !in ReviewsByAuthor(old(reviews), id)
    {
      var gone := ReviewsByAuthor(reviews, id);
      var keepUser := (u: User) => u.id != id;
      var keepReview := (r: Review) => r.author != id;
      var keepComment := (c: Comment) => c.author != id && c.review !in gone;
      var us, rs, cs := Filter(users, keepUser), Filter(reviews, keepReview), Filter(comments, keepComment);
      assert UsersValid(us) by {
        FilterKeepsUnique(users, keepUser, UserId);
        FilterKeepsUnique(users, keepUser, Username);
        FilterKeepsUnique(users, keepUser, Email);
        FilterKeepsUnique(users, keepUser, Identity);
      }
      assert ReviewsValid(rs, titles, us) by {
        FilterKeepsUnique(reviews, keepReview, ReviewId);
        FilterKeepsUnique(reviews, keepReview, ReviewSlot);
        forall r | r in rs ensures r.title in KeySet(titles, TitleId) && r.author in KeySet(us, UserId) {
          var u :| u in users && u.id == r.author;
          assert keepUser(u);
        }
      }
      assert CommentsValid(cs, rs, us) by {
        FilterKeepsUnique(comments, keepComment, CommentId);
        forall c | c in cs ensures c.review in KeySet(rs, ReviewId) && c.author in KeySet(us, UserId) {
          var r :| r in reviews && r.id == c.review;
          assert keepReview(r);
          var u :| u in users && u.id == c.author;
          assert keepUser(u);
        }
      }
      users, reviews, comments := us, rs, cs;
    }
  }
}
