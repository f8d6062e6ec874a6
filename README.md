# Movie list state — a Dafny model

This project models the data side of the "Top Movies" list screen of the
Movie app: the `Movie` feed record, the persisted `LocalMovie` record with
its user rating, and the state kept by `MovieListViewController` — the
rows on screen (`movies`), the SwiftData store of `LocalMovie` objects
and the "cachedMovies" blob in the user defaults — together with the
operations that move data between them: start-up loading (cache, then
store, then network), merging a fetched feed into the store, the rating
dialog's check and update, deletion, and the cache save and load.

Modules, one per source file plus two helpers:

- `wrappers.dfy` (`Wrappers`): `Option` and `Result`.
- `movie.dfy` (`Movies`): the `Movie` datatype and its `Codable` form,
  modelled as a flat list of the eight string fields (`Encode`/`Decode`).
- `local_movie.dfy` (`LocalMovies`): the mutable class `LocalMovie`, its
  value `LocalMovieData`, `from(movie:)`/`toMovie()` as `FromMovie` and
  `ToMovie`, `description`, and the string computed by `resizedImageURL`.
- `rating_text.dfy` (`RatingText`): Swift's `Int(String)` (`ParseInt`)
  and the rating dialog's accept/reject rule (`IsValidRating`).
- `movie_list.dfy` (`MovieList`): the class `MovieListViewController`
  and the value-level specifications it is proved against (`Merge`,
  `RemoveFirstWithId`, `FirstIndexWithId`, `CacheProjection`,
  `FromMovies`, `Snapshot`, `IsListing`, and the class's `CachedMovies`).

The store is a map from id to `LocalMovie` object. Its invariant
(`Valid`) is that each object is filed under its own `id`, the `unique`
attribute of `LocalMovie.id`. The rows read from the store are the stored
objects themselves, so setting a rating on a row changes the store too;
the model keeps that aliasing. Rows built from the cache are fresh objects
outside the store.

The network answer, whether a store read succeeds and whether a store
save succeeds are parameters of the methods. The order in which the
store returns its movies is not fixed by the code (the fetch has no sort
descriptor): `FetchAll` picks it nondeterministically and promises only a
listing — every stored movie exactly once.

A re-fetch does not keep a user's rating. `saveMoviesToStorage` inserts a
new `LocalMovie.from(movie)` for every fetched movie, and that object has
no rating. With inserts modelled as replacing the stored object (see
"Left out"), `MergeLatest` proves that every movie in the feed ends up
with no rating.

## Model

| member | source | states |
|---|---|---|
| Movies.Encode | Movie/Models/Movie.swift:11-20 | encoding a list of movies always succeeds and writes eight fields per movie |
| Movies.Decode | Movie/Models/Movie.swift:11-20 | a blob that decodes holds exactly eight fields per decoded movie |
| Movies.DecodeEncode | Movie/MovieListViewController.swift:208-222 | decoding what was encoded gives back the same list of movies |
| Movies.EncodeDecode | Movie/MovieListViewController.swift:215-222 | for the abstract blob (a list of field strings), a blob that decodes is the encoding of what it decodes to; real JSON may differ in whitespace and key order |
| Movies.DecodeRejectsPartial | Movie/MovieListViewController.swift:215-222 | a blob that does not split into whole movies decodes to nothing, which is a cache miss |
| LocalMovies.LocalMovie.constructor | Movie/Models/LocalMovie.swift:23-43 | the initialiser stores the nine given values; the user rating defaults to none |
| LocalMovies.LocalMovie.From | Movie/Models/LocalMovie.swift:51-62 | `from(movie:)` builds a new object whose value is `FromMovie(movie)` |
| LocalMovies.FromMovie | Movie/Models/LocalMovie.swift:51-62 | the record keeps the movie's id and has no user rating |
| LocalMovies.ToMovie | Movie/Models/LocalMovie.swift:64-75 | the movie keeps the record's id |
| LocalMovies.FromMovieToMovie | Movie/Models/LocalMovie.swift:51-75 | `from(m).toMovie() == m` for every movie |
| LocalMovies.ToMovieFromMovie | Movie/Models/LocalMovie.swift:51-75 | `from(r.toMovie())` equals `r` on the eight feed fields, with the rating reset to none |
| LocalMovies.ToMovieForgetsOnlyRating | Movie/Models/LocalMovie.swift:64-75 | two records give the same movie if and only if they differ at most in the user rating |
| LocalMovies.Description | Movie/Models/LocalMovie.swift:47-49 | the description starts with the title and its length is the four fields' lengths plus the fixed text |
| LocalMovies.DescriptionSurvivesCache | Movie/Models/LocalMovie.swift:47-49 | a row rebuilt from the cache has the same description as the row saved |
| LocalMovies.BeforeSeparator | Movie/Models/LocalMovie.swift:81 | the result is a prefix of the image string |
| LocalMovies.BeforeSeparatorIsFirst | Movie/Models/LocalMovie.swift:81 | the prefix stops at the first "._": none inside it, and one right after it unless the prefix is the whole string and there is none |
| LocalMovies.BeforeSeparatorUnique | Movie/Models/LocalMovie.swift:81 | any prefix with no "._" inside and one right after is the computed prefix |
| LocalMovies.ResizedImageString | Movie/Models/LocalMovie.swift:79-83 | the resized address always ends with "._V0_UX600_.jpg" |
| LocalMovies.ResizedImageIdempotent | Movie/Models/LocalMovie.swift:80-81 | resizing an already resized address gives the same string |
| RatingText.ParseInt | Movie/MovieListViewController.swift:184 | `Int(text)` yields only values in the 64-bit range, and nothing positive after a '-' sign |
| RatingText.IsValidRating | Movie/MovieListViewController.swift:184 | accepted text is never empty and never starts with '-'; `RatingAcceptance` states exactly which texts it accepts |
| RatingText.RatingAcceptance | Movie/MovieListViewController.swift:183-195 | text is accepted if and only if it is an optional '+', any zeros, then a digit 1-9 or "10" |
| RatingText.RatingExamples | Movie/MovieListViewController.swift:184-189 | "7", "10", "+7", "07" are accepted; "0", "11", "-3", "abc", "7.5", "", " 7" are rejected |
| MovieList.FeedIdsSnoc | Movie/MovieListViewController.swift:66-68 | the feed's ids are those of all but its last movie plus the last movie's |
| MovieList.Merge | Movie/MovieListViewController.swift:66-69 | the store's values after the insert loop: no stored id is lost and every newly added id has no rating; `MergeKeys`, `MergeKeyedById`, `MergeLatest` and `MergeUntouched` state its full effect |
| MovieList.MergeKeys | Movie/MovieListViewController.swift:65-69 | merging a feed removes no stored id and adds exactly the feed's ids |
| MovieList.MergeKeyedById | Movie/Models/LocalMovie.swift:13 | after a merge every record is still stored under its own id, one per id |
| MovieList.MergeLatest | Movie/MovieListViewController.swift:66-68 | a fetched id holds `from(movie)` of the feed's last movie with that id, with no user rating |
| MovieList.MergeUntouched | Movie/MovieListViewController.swift:65-69 | an id absent from the feed keeps its record, and stays absent if it was |
| MovieList.FirstIndexWithId | Movie/MovieListViewController.swift:132 | the index is the first whose id matches, or the length when none does |
| MovieList.RemoveFirstWithId | Movie/MovieListViewController.swift:132-133 | the rows after removing the first one with the id, as values; `RemoveFirstSplits`, `RemoveFirstAbsent`, `RemoveFirstLength` and `RemoveFromDistinct` state its effect |
| MovieList.RemoveFirstSplits | Movie/MovieListViewController.swift:132-133 | removal cuts out exactly the first row with the id and keeps the rest in order |
| MovieList.RemoveFirstAbsent | Movie/MovieListViewController.swift:132 | with no row of that id the rows are unchanged |
| MovieList.RemoveFirstLength | Movie/MovieListViewController.swift:132-133 | the count drops by one if and only if a row has the id |
| MovieList.RemoveFromDistinct | MovieTests/MovieListViewControllerTests.swift:59-69 | with distinct ids, deleting a present id leaves no row with it and one row less |
| MovieList.CacheProjection | Movie/MovieListViewController.swift:210 | `movies.map { $0.toMovie() }`: one movie per row, in order, each with its row's id; `CacheRoundTrip` states what a read-back gives |
| MovieList.FromMovies | Movie/MovieListViewController.swift:219 | `cachedMovies.map { LocalMovie.from(movie: $0) }` as values: one record per movie, in order, with its id and no rating; `CacheRoundTrip` relates it to `CacheProjection` |
| MovieList.CacheRoundTrip | Movie/MovieListViewController.swift:208-222 | rows written to the cache and read back are the same rows with every user rating dropped |
| MovieList.IdsOfSnoc | Movie/MovieListViewController.swift:80 | the ids of a list are those of its front plus the last row's |
| MovieList.ListingSize | Movie/MovieListViewController.swift:80 | a read of the store has exactly one row per stored movie |
| MovieList.Snapshot | Movie/MovieListViewController.swift:80 | the values of a store of objects have exactly the store's keys |
| MovieList.ListedIsStored | Movie/MovieListViewController.swift:80 | a row of a read of the store is the object stored under its id |
| MovieList.RemoveFromListing | Movie/MovieListViewController.swift:127-133 | removing one row from a read of the store gives a read of the store without that row's id |
| MovieList.IsListing | Movie/MovieListViewController.swift:80 | what `fetch(FetchDescriptor<LocalMovie>())` returns: each stored object once, each row the object under its id; `ListingSize`, `ListingDistinct`, `ListedIsStored` and `RemoveFromListing` state its properties |
| MovieList.ListingDistinct | Movie/MovieListViewController.swift:80 | a read of the store has distinct ids and contains every stored id |
| MovieList.MovieListViewController.CachedMovies | Movie/MovieListViewController.swift:216-218 | the cache yields movies exactly when it holds a blob that decodes, and that blob is then their encoding |
| MovieList.MovieListViewController.constructor | Movie/MovieListViewController.swift:16-17 | the screen starts with no rows over the given store and cache |
| MovieList.MovieListViewController.NumberOfRows | Movie/MovieListViewController.swift:143-145 | the row count equals the number of movies |
| MovieList.MovieListViewController.ViewDidLoad | Movie/MovieListViewController.swift:21-27 | the last successful read wins (network re-read, else store read, else decodable cache, else nothing changes); on success the store's values are the feed merged in, ids outside the feed keep their very objects and feed ids hold new objects; on failure the store is unchanged; the cache is not written |
| MovieList.MovieListViewController.FetchMovies | Movie/MovieListViewController.swift:52-63 | on success the store's values are the merge of the feed, ids outside the feed keep their objects, feed ids hold new objects and, if the read succeeds, the rows become a listing of the store; on failure rows and store are unchanged |
| MovieList.MovieListViewController.Insert | Movie/MovieListViewController.swift:67-68 | a new object holding `FromMovie(movie)` is filed under the movie's id; every other id keeps its object |
| MovieList.MovieListViewController.SaveMoviesToStorage | Movie/MovieListViewController.swift:65-76 | the store's values become `Merge` of its old values with the feed; ids outside the feed keep their very objects, feed ids hold new objects; rows and cache are unchanged |
| MovieList.MovieListViewController.FetchAll | Movie/MovieListViewController.swift:80 | returns every stored object exactly once, each under its id |
| MovieList.MovieListViewController.LoadMoviesFromStorage | Movie/MovieListViewController.swift:78-85 | a successful read replaces the rows with a listing of the store; a failed one leaves them |
| MovieList.MovieListViewController.MakeLocalMovies | Movie/MovieListViewController.swift:219 | one new object per cached movie, holding `FromMovie` of it |
| MovieList.MovieListViewController.LoadMoviesFromCache | Movie/MovieListViewController.swift:215-222 | a decodable cache replaces the rows with fresh rating-free rows for its movies; otherwise the rows are untouched |
| MovieList.MovieListViewController.SaveMoviesToCache | Movie/MovieListViewController.swift:208-213 | the cache becomes the encoding of the rows' movies |
| MovieList.MovieListViewController.UpdateMovieRating | Movie/MovieListViewController.swift:108-120 | only the given object's rating changes, in rows and store alike; the cache is rewritten only when the save succeeds; no roll-back on failure |
| MovieList.MovieListViewController.SubmitRating | Movie/MovieListViewController.swift:182-196 | empty text does nothing, accepted text is stored as typed, any other text changes nothing and raises the error alert |
| MovieList.MovieListViewController.FirstIndex | Movie/MovieListViewController.swift:132 | returns the first index whose id matches, or none when no row matches |
| MovieList.MovieListViewController.RemoveRow | Movie/MovieListViewController.swift:133 | removes the row at the index and keeps the others in order |
| MovieList.MovieListViewController.DeleteFromStore | Movie/MovieListViewController.swift:128 | the object leaves the store when it is the one stored under its id, which it is when it is a row of a read of the store |
| MovieList.MovieListViewController.RemoveFirstRow | Movie/MovieListViewController.swift:132-133 | the first row object with the id is cut out and the others keep their order; rows that were a read of a store become a read of that store without the id |
| MovieList.MovieListViewController.DeleteSaved | Movie/MovieListViewController.swift:127-135 | with the save succeeding, the object leaves the store, the first row with its id leaves the list, and rows that were a read of the store still are |
| MovieList.MovieListViewController.DeleteMovie | Movie/MovieListViewController.swift:127-139 | the object leaves the store; after a successful save the first row object with its id is removed, others keep their order, and rows that were a read of the store still are; after a failed save the rows are unchanged |

## Left out

- The user interface: `setupUI`, table-view registration, row reloads and deletions on screen, alert presentation, `cellForRowAt` and `MovieTableViewCell`. The alert the dialog raises is the `Rejected` outcome of `SubmitRating`.
- The network: `MovieService.fetchMovies`, `URLSession` and image loading. The fetch result is a parameter of type `Result<seq<Movie>, FetchError>`. The error's kind is not modelled, because the screen only logs it.
- SwiftData, `ModelContainer` and `PersistenceController`. The store is a map from id to object. Whether a read or a save succeeds is a parameter. The store's order on a read is arbitrary.
- A failing save in `saveMoviesToStorage` only logs. The model keeps the inserted objects, since the store's next read returns unsaved inserts too. The model has no separate durable copy of the store, so what a later launch would find after a failed save is not captured.
- In `deleteMovie` the store drops the object before the save. A failed save leaves the store without it while the rows keep it, exactly as the code does. Deleting an object that is not the stored one for its id, such as a row built from the cache, leaves the store as it is.
- `JSONEncoder`/`JSONDecoder` and `UserDefaults`: the blob is a flat list of the string fields, and encoding never fails, as it cannot for a list of strings. `URL(string:)` is left out: only the string computed by `resizedImageURL` is modelled.
- Inserting a `LocalMovie` whose id is already stored is modelled as replacing the stored object with the new one: this assumes SwiftData's upsert on a `unique` attribute lets the inserted values win. The older object is dropped from the store and is not updated in place, so a row that still holds it keeps its old values, rating included.
- Strings are sequences of Unicode scalars. Foundation's `components(separatedBy:)` matches whole Characters (grapheme clusters), so the two can differ when a combining mark follows the "._" separator. Image addresses are ASCII, where the two agree.
- Concurrency: the fetch completes asynchronously in the app. The model runs it right after the store read in `ViewDidLoad` and does not model a rating or delete that happens before the fetch returns.
