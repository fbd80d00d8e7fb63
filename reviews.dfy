/**
 * Reviews: the catalogue and its feedback (reviews/models.py).
 *
 * Title points to an optional Category, GenreTitle links a Title to a Genre,
 * a Review belongs to a Title and an author, a Comment to a Review and an
 * author. References are primary keys; what happens to them when their
 * target is deleted is the Store's business.
 */
module Reviews {
  import opened Tables
  import opened Core
  import Validators

  datatype Title = Title(id: nat, name: string, year: int, category: Option<nat>, description: Option<string>)
  datatype GenreTitle = GenreTitle(id: nat, title: nat, genre: nat)
  datatype Review = Review(id: nat, text: string, title: nat, score: int, author: nat)
  datatype Comment = Comment(id: nat, text: string, review: nat, author: nat)

  // Key functions of the four tables.
  function TitleId(t: Title): nat { t.id }
  function LinkId(l: GenreTitle): nat { l.id }
  function ReviewId(r: Review): nat { r.id }
  function CommentId(c: Comment): nat { c.id }
  /** The pair the `unique_review` constraint is on. */
  function ReviewSlot(r: Review): (nat, nat) { (r.title, r.author) }

  const MIN_SCORE: int := 1
  const MAX_SCORE: int := 10
  const DEFAULT_SCORE: int := 5
  /** The largest value a PositiveSmallIntegerField holds. */
  const SMALL_MAX: int := 32767

  /** The validators of `Review.score`: MinValueValidator(1) and MaxValueValidator(10). */
  predicate ScoreInRange(score: int) {
    MIN_SCORE <= score <= MAX_SCORE
  }

  /** The score a Review row gets at the model level: the given one, or the field default. */
  function ModelScore(given: Option<int>): (score: int)
    ensures given.Some? ==> score == given.value
    ensures given.None? ==> score == DEFAULT_SCORE
  {
    if given.Some? then given.value else DEFAULT_SCORE
  }

  /** The validators of `Title.year`: the range of a PositiveSmallIntegerField and
      `validate_year`. */
  function TitleYearValid(year: int, currentYear: int): (ok: bool)
    ensures ok <==> 0 <= year <= SMALL_MAX && year < currentYear
  {
    0 <= year <= SMALL_MAX && Validators.ValidateYear(year, currentYear).None?
  }

  /** The ids of the reviews of title `titleId`: what deleting the title takes along. */
  function ReviewsOfTitle(reviews: seq<Review>, titleId: nat): (ids: set<nat>)
    ensures forall r :: r in reviews && r.title == titleId ==> r.id in ids
    ensures forall i :: i in ids ==> exists r :: r in reviews && r.title == titleId && r.id == i
  {
    set r | r in reviews && r.title == titleId :: r.id
  }

  /** The ids of the reviews written by user `userId`: what deleting the user takes along. */
  function ReviewsByAuthor(reviews: seq<Review>, userId: nat): (ids: set<nat>)
    ensures forall r :: r in reviews && r.author == userId ==> r.id in ids
    ensures forall i :: i in ids ==> exists r :: r in reviews && r.author == userId && r.id == i
  {
    set r | r in reviews && r.author == userId :: r.id
  }

  /** `Title.__str__`. */
  function TitleStr(t: Title): string {
    t.name
  }

  /** `GenreTitle.__str__`: the genre's text, a space, the title's. */
  function GenreTitleStr(genre: Group, title: Title, lengCut: nat): (r: string)
    ensures |r| == |GroupStr(genre, lengCut)| + 1 + |title.name|
    ensures r[..|GroupStr(genre, lengCut)|] == GroupStr(genre, lengCut) <= genre.name
    ensures r[|GroupStr(genre, lengCut)|] == ' '
    ensures r[|GroupStr(genre, lengCut)| + 1..] == title.name
  {
    GroupStr(genre, lengCut) + " " + TitleStr(title)
  }
}
