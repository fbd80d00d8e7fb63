/**
 * Core: the two abstract base models (core/models.py).
 *
 * GenreAndCategoryModel gives Category and Genre a unique name and a unique
 * slug; ReviewAndCommentModel gives Review and Comment a text. Both shorten
 * their text representation to the first LENG_CUT characters.
 */
module Core {
  import opened Tables

  /** A Category or Genre row. */
  datatype Group = Group(id: nat, name: string, slug: string)

  // Key functions of the category and genre tables.
  function GroupId(g: Group): nat { g.id }
  function GroupName(g: Group): string { g.name }
  function GroupSlug(g: Group): string { g.slug }

  /** The database constraints of a category or genre table: the primary key, unique
      name and unique slug. */
  predicate GroupsValid(gs: seq<Group>) {
    UniqueBy(gs, GroupId) && UniqueBy(gs, GroupName) && UniqueBy(gs, GroupSlug)
  }

  /** One character `validate_slug` admits: an ASCII letter, digit, hyphen or underscore. */
  predicate IsSlugChar(c: char) {
    'a' <= c <= 'z' || 'A' <= c <= 'Z' || '0' <= c <= '9' || c == '-' || c == '_'
  }

  /** `validate_slug`: one or more slug characters and nothing else. */
  predicate IsSlug(s: string) {
    |s| > 0 && forall i :: 0 <= i < |s| ==> IsSlugChar(s[i])
  }

  /** Python's `s[:n]` for a non-negative `n`. */
  function Cut(s: string, n: nat): (r: string)
    ensures |r| == if |s| < n then |s| else n
    ensures r <= s
  {
    if |s| <= n then s else s[..n]
  }

  /** A text no longer than the cut is shown whole. */
  lemma CutShortIsWhole(s: string, n: nat)
    requires |s| <= n
    ensures Cut(s, n) == s
  {
  }

  /** `GenreAndCategoryModel.__str__`: the name cut to LENG_CUT characters. */
  function GroupStr(g: Group, lengCut: nat): (r: string)
    ensures |r| == if |g.name| < lengCut then |g.name| else lengCut
    ensures r <= g.name
  {
    Cut(g.name, lengCut)
  }

  /** `ReviewAndCommentModel.__str__`: the text cut to LENG_CUT characters. */
  function TextStr(text: string, lengCut: nat): (r: string)
    ensures |r| == if |text| < lengCut then |text| else lengCut
    ensures r <= text
  {
    Cut(text, lengCut)
  }
}
