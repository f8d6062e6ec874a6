/** The persisted record `LocalMovie`: the eight feed fields plus the
    user's own rating, its conversions to and from `Movie`, and the two
    strings the list shows for it. */
module LocalMovies {
  import opened Wrappers
  import opened Movies

  /** The contents of a `LocalMovie` at one moment. */
  datatype LocalMovieData = LocalMovieData(
    id: string,
    rank: string,
    title: string,
    fullTitle: string,
    year: string,
    image: string,
    imDbRating: string,
    imDbRatingCount: string,
    userRating: Option<string>)

  /** A stored movie. Its fields are mutable; the list screen changes
      `userRating` in place. `id` is the unique key of the store. */
  class LocalMovie {
    var id: string
    var rank: string
    var title: string
    var fullTitle: string
    var year: string
    var image: string
    var imDbRating: string
    var imDbRatingCount: string
    var userRating: Option<string>

    function Value(): LocalMovieData
      reads this
    {
      LocalMovieData(id, rank, title, fullTitle, year, image, imDbRating, imDbRatingCount, userRating)
    }

    /** The memberwise initialiser; `userRating` defaults to none. */
    constructor (id: string, rank: string, title: string, fullTitle: string, year: string,
                 image: string, imDbRating: string, imDbRatingCount: string,
                 userRating: Option<string> := None)
      ensures Value() == LocalMovieData(id, rank, title, fullTitle, year, image,
                                        imDbRating, imDbRatingCount, userRating)
    {
      this.id := id;
      this.rank := rank;
      this.title := title;
      this.fullTitle := fullTitle;
      this.year := year;
      this.image := image;
      this.imDbRating := imDbRating;
      this.imDbRatingCount := imDbRatingCount;
      this.userRating := userRating;
    }

    /** `LocalMovie.from(movie:)`: a new object holding the movie. */
    constructor From(movie: Movie)
      ensures Value() == FromMovie(movie)
    {
      id := movie.id;
      rank := movie.rank;
      title := movie.title;
      fullTitle := movie.fullTitle;
      year := movie.year;
      image := movie.image;
      imDbRating := movie.imDbRating;
      imDbRatingCount := movie.imDbRatingCount;
      userRating := None;
    }
  }

  /** The record `LocalMovie.from(movie:)` builds: the feed fields, no
      user rating. */
  function FromMovie(m: Movie): (r: LocalMovieData)
    ensures r.id == m.id && r.userRating == None
  {
    LocalMovieData(m.id, m.rank, m.title, m.fullTitle, m.year, m.image,
                   m.imDbRating, m.imDbRatingCount, None)
  }

  /** `toMovie()`: the feed fields of a record, without the user rating. */
  function ToMovie(r: LocalMovieData): (m: Movie)
    ensures m.id == r.id
  {
    Movie(r.id, r.rank, r.title, r.fullTitle, r.year, r.image, r.imDbRating, r.imDbRatingCount)
  }

  /** Converting a movie to a record and back gives the movie. */
  lemma FromMovieToMovie(m: Movie)
    ensures ToMovie(FromMovie(m)) == m
  {
  }

  /** Converting a record to a movie and back keeps every feed field and
      loses the user rating. */
  lemma ToMovieFromMovie(r: LocalMovieData)
    ensures FromMovie(ToMovie(r)) == r.(userRating := None)
  {
  }

  /** Two records convert to the same movie exactly when they agree on
      everything but the user rating. */
  lemma ToMovieForgetsOnlyRating(r: LocalMovieData, s: LocalMovieData)
    ensures ToMovie(r) == ToMovie(s) <==> r.(userRating := None) == s.(userRating := None)
  {
  }

  // ---------------------------------------------------------------------
  // The description line
  // ---------------------------------------------------------------------

  const RatingLabel := ") \nОбщий рейтинг:"
  const VotesOpen := "⭐ \n("
  const VotesClose := " кол-во голосов)"

  /** `description`: the title, the year in parentheses, the overall
      rating with a star and the vote count, on three lines. */
  function Description(r: LocalMovieData): (s: string)
    ensures |s| == |r.title| + |r.year| + |r.imDbRating| + |r.imDbRatingCount|
                   + 2 + |RatingLabel| + |VotesOpen| + |VotesClose|
    ensures s[..|r.title|] == r.title
  {
    r.title + " (" + r.year + RatingLabel + r.imDbRating + VotesOpen + r.imDbRatingCount + VotesClose
  }

  /** The description reads only feed fields: a row rebuilt from the
      cache shows the same description as the row it was saved from. */
  lemma DescriptionSurvivesCache(r: LocalMovieData)
    ensures Description(FromMovie(ToMovie(r))) == Description(r)
  {
  }

  // ---------------------------------------------------------------------
  // The resized image address
  // ---------------------------------------------------------------------

  /** What replaces everything from the first "._" on. */
  const ResizedSuffix := "._V0_UX600_.jpg"

  /** The separator "._" starts at index `i` of `s`. */
  predicate SeparatorAt(s: string, i: int)
  {
    0 <= i && i + 1 < |s| && s[i] == '.' && s[i + 1] == '_'
  }

  /** `s.components(separatedBy: "._")[0]`: the part of `s` before the
      first "._", or all of `s` when it has none. */
  function BeforeSeparator(s: string): (p: string)
    ensures |p| <= |s| && p == s[..|p|]
  {
    if |s| < 2 then s
    else if s[0] == '.' && s[1] == '_' then []
    else [s[0]] + BeforeSeparator(s[1..])
  }

  /** The string part of `resizedImageURL`. */
  function ResizedImageString(image: string): (r: string)
    ensures |r| >= |ResizedSuffix| && r[|r| - |ResizedSuffix|..] == ResizedSuffix
  {
    BeforeSeparator(image) + ResizedSuffix
  }

  /** `BeforeSeparator` stops at the first separator: none starts inside
      the prefix, and either one starts right after it or the prefix is
      the whole string and there is none. */
  lemma {:induction false} BeforeSeparatorIsFirst(s: string)
    ensures forall i | 0 <= i < |BeforeSeparator(s)| :: !SeparatorAt(s, i)
    ensures SeparatorAt(s, |BeforeSeparator(s)|)
            || (BeforeSeparator(s) == s && forall i :: !SeparatorAt(s, i))
  {
    if |s| >= 2 && !(s[0] == '.' && s[1] == '_') {
      BeforeSeparatorIsFirst(s[1..]);
      forall i | 0 <= i < |BeforeSeparator(s)|
        ensures !SeparatorAt(s, i)
      {
        if i > 0 {
          assert !SeparatorAt(s[1..], i - 1);
        }
      }
      if !SeparatorAt(s[1..], |BeforeSeparator(s[1..])|) {
        forall i ensures !SeparatorAt(s, i) {
          if i > 0 {
            assert !SeparatorAt(s[1..], i - 1);
          }
        }
      }
    }
  }

  /** A prefix with no separator inside it and one right after it is
      exactly what `BeforeSeparator` returns. */
  lemma BeforeSeparatorUnique(s: string, q: string)
    requires |q| <= |s| && q == s[..|q|]
    requires forall i | 0 <= i < |q| :: !SeparatorAt(s, i)
    requires SeparatorAt(s, |q|)
    ensures BeforeSeparator(s) == q
  {
    BeforeSeparatorIsFirst(s);
  }

  /** Resizing an already resized address changes nothing. */
  lemma ResizedImageIdempotent(image: string)
    ensures ResizedImageString(ResizedImageString(image)) == ResizedImageString(image)
  {
    var p := BeforeSeparator(image);
    var s := p + ResizedSuffix;
    BeforeSeparatorIsFirst(image);
    forall i | 0 <= i < |p|
      ensures !SeparatorAt(s, i)
    {
      if i + 1 < |p| {
        assert !SeparatorAt(image, i);
      } else {
        assert s[i + 1] == '.';
      }
    }
    assert SeparatorAt(s, |p|);
    BeforeSeparatorUnique(s, p);
  }
}
