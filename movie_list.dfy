/** The state of the movie list screen: the rows it shows, the store of
    persisted movies and the cached copy of the list, and the operations
    that move data between them. */
module MovieList {
  import opened Wrappers
  import opened Movies
  import opened LocalMovies
  import RatingText

  /** Why the feed could not be fetched; the screen only logs it. */
  datatype FetchError = FetchError(reason: string)

  /** What the rating dialog's save button did. */
  datatype RatingOutcome =
    | NoInput   // empty text: the dialog closes, nothing happens
    | Saved     // accepted text: the rating is updated
    | Rejected  // any other text: the error alert is shown

  // ---------------------------------------------------------------------
  // Merging a fetched feed into the store
  // ---------------------------------------------------------------------

  /** The ids that occur in a feed. */
  function FeedIds(feed: seq<Movie>): set<string>
  {
    set i | 0 <= i < |feed| :: feed[i].id
  }

  /** The ids of a feed are those of all but its last movie, plus the
      last movie's. */
  lemma FeedIdsSnoc(feed: seq<Movie>)
    requires feed != []
    ensures FeedIds(feed) == FeedIds(feed[..|feed| - 1]) + {feed[|feed| - 1].id}
  {
    var init := feed[..|feed| - 1];
    forall k | k in FeedIds(feed) ensures k in FeedIds(init) + {feed[|feed| - 1].id} {
      var i :| 0 <= i < |feed| && feed[i].id == k;
      if i < |feed| - 1 { assert init[i].id == k; }
    }
    forall k | k in FeedIds(init) ensures k in FeedIds(feed) {
      var i :| 0 <= i < |init| && init[i].id == k;
      assert feed[i].id == k;
    }
  }

  /** Every record is stored under its own id. */
  predicate KeyedById(st: map<string, LocalMovieData>)
  {
    forall k | k in st :: st[k].id == k
  }

  /** The store after inserting `LocalMovie.from(movie)` for each movie
      of the feed in order; an insert with an id already present replaces
      that record, so the last movie with an id wins. */
  function Merge(stored: map<string, LocalMovieData>, feed: seq<Movie>): (merged: map<string, LocalMovieData>)
    ensures stored.Keys <= merged.Keys
    ensures forall k | k in merged && k !in stored :: merged[k].userRating == None
  {
    if feed == [] then stored
    else
      var m := feed[|feed| - 1];
      Merge(stored, feed[..|feed| - 1])[m.id := FromMovie(m)]
  }

  /** Merging removes nothing: the stored ids afterwards are the ids
      before plus the ids of the feed. */
  lemma {:induction false} MergeKeys(stored: map<string, LocalMovieData>, feed: seq<Movie>)
    ensures Merge(stored, feed).Keys == stored.Keys + FeedIds(feed)
  {
    if feed != [] {
      var init := feed[..|feed| - 1];
      MergeKeys(stored, init);
      FeedIdsSnoc(feed);
    }
  }

  /** Merging keeps every record under its own id. */
  lemma {:induction false} MergeKeyedById(stored: map<string, LocalMovieData>, feed: seq<Movie>)
    requires KeyedById(stored)
    ensures KeyedById(Merge(stored, feed))
  {
    if feed != [] {
      MergeKeyedById(stored, feed[..|feed| - 1]);
    }
  }

  /** The record stored for an id of the feed is the last movie of the
      feed with that id, with no user rating: a re-fetch resets the
      rating of every movie it contains. */
  lemma {:induction false} MergeLatest(stored: map<string, LocalMovieData>, feed: seq<Movie>, j: nat)
    requires j < |feed|
    requires forall k | j < k < |feed| :: feed[k].id != feed[j].id
    ensures feed[j].id in Merge(stored, feed)
    ensures Merge(stored, feed)[feed[j].id] == FromMovie(feed[j])
    ensures Merge(stored, feed)[feed[j].id].userRating == None
  {
    if j < |feed| - 1 {
      var init := feed[..|feed| - 1];
      MergeLatest(stored, init, j);
    }
  }

  /** An id the feed does not mention keeps its record, and an id absent
      before stays absent. */
  lemma {:induction false} MergeUntouched(stored: map<string, LocalMovieData>, feed: seq<Movie>, id: string)
    requires forall i | 0 <= i < |feed| :: feed[i].id != id
    ensures id in Merge(stored, feed) <==> id in stored
    ensures id in stored ==> Merge(stored, feed)[id] == stored[id]
  {
    if feed != [] {
      MergeUntouched(stored, feed[..|feed| - 1], id);
    }
  }

  // ---------------------------------------------------------------------
  // Removing a row
  // ---------------------------------------------------------------------

  predicate HasId(rows: seq<LocalMovieData>, id: string)
  {
    exists j | 0 <= j < |rows| :: rows[j].id == id
  }

  /** The index of the first row whose id is `id`, or the number of
      rows when there is none. */
  function FirstIndexWithId(rows: seq<LocalMovieData>, id: string): (r: nat)
    ensures r <= |rows|
    ensures r < |rows| ==> rows[r].id == id
    ensures forall j | 0 <= j < r :: rows[j].id != id
  {
    if rows == [] then 0
    else if rows[0].id == id then 0
    else 1 + FirstIndexWithId(rows[1..], id)
  }

  /** The rows without the first one whose id is `id`. */
  function RemoveFirstWithId(rows: seq<LocalMovieData>, id: string): (rest: seq<LocalMovieData>)
  {
    if rows == [] then []
    else if rows[0].id == id then rows[1..]
    else [rows[0]] + RemoveFirstWithId(rows[1..], id)
  }

  /** Removal cuts out exactly the first match and keeps the other rows
      in their order. */
  lemma {:induction false} RemoveFirstSplits(rows: seq<LocalMovieData>, id: string, i: nat)
    requires i < |rows| && rows[i].id == id
    requires forall j | 0 <= j < i :: rows[j].id != id
    ensures RemoveFirstWithId(rows, id) == rows[..i] + rows[i + 1..]
  {
    if i > 0 {
      RemoveFirstSplits(rows[1..], id, i - 1);
      assert rows[1..][..i - 1] == rows[1..i];
      assert rows[1..][i..] == rows[i + 1..];
      assert [rows[0]] + rows[1..i] == rows[..i];
    }
  }

  /** Without a match, removal changes nothing. */
  lemma {:induction false} RemoveFirstAbsent(rows: seq<LocalMovieData>, id: string)
    requires !HasId(rows, id)
    ensures RemoveFirstWithId(rows, id) == rows
  {
    if rows != [] {
      assert !HasId(rows[1..], id) by {
        forall j | 0 <= j < |rows[1..]| ensures rows[1..][j].id != id {
          assert rows[1..][j] == rows[j + 1];
        }
      }
      RemoveFirstAbsent(rows[1..], id);
    }
  }

  /** The count drops by one exactly when some row has the id. */
  lemma {:induction false} RemoveFirstLength(rows: seq<LocalMovieData>, id: string)
    ensures |RemoveFirstWithId(rows, id)| == if HasId(rows, id) then |rows| - 1 else |rows|
  {
    if rows != [] && rows[0].id != id {
      RemoveFirstLength(rows[1..], id);
      if HasId(rows, id) {
        var j :| 0 <= j < |rows| && rows[j].id == id;
        assert rows[1..][j - 1].id == id;
      } else {
        assert !HasId(rows[1..], id) by {
          forall j | 0 <= j < |rows[1..]| ensures rows[1..][j].id != id {
            assert rows[1..][j] == rows[j + 1];
          }
        }
      }
    }
  }

  predicate DistinctIds(rows: seq<LocalMovieData>)
  {
    forall i, j | 0 <= i < j < |rows| :: rows[i].id != rows[j].id
  }

  /** When ids are distinct (as in a list read from the store), removing
      an id that is present leaves no row with that id and one row less. */
  lemma RemoveFromDistinct(rows: seq<LocalMovieData>, id: string)
    requires DistinctIds(rows) && HasId(rows, id)
    ensures !HasId(RemoveFirstWithId(rows, id), id)
    ensures |RemoveFirstWithId(rows, id)| == |rows| - 1
  {
    var i :| 0 <= i < |rows| && rows[i].id == id;
    forall j | 0 <= j < i ensures rows[j].id != id { }
    RemoveFirstSplits(rows, id, i);
    var r := rows[..i] + rows[i + 1..];
    forall j | 0 <= j < |r| ensures r[j].id != id {
      if j >= i { assert r[j] == rows[j + 1]; }
    }
  }

  // ---------------------------------------------------------------------
  // The cache
  // ---------------------------------------------------------------------

  /** `movies.map { $0.toMovie() }`: what the cache is written from. */
  function CacheProjection(rows: seq<LocalMovieData>): (ms: seq<Movie>)
    ensures |ms| == |rows|
    ensures forall i | 0 <= i < |rows| :: ms[i].id == rows[i].id
  {
    seq(|rows|, i requires 0 <= i < |rows| => ToMovie(rows[i]))
  }

  /** `cachedMovies.map { LocalMovie.from(movie: $0) }`, as values. */
  function FromMovies(ms: seq<Movie>): (rows: seq<LocalMovieData>)
    ensures |rows| == |ms|
    ensures forall i | 0 <= i < |ms| :: rows[i].id == ms[i].id && rows[i].userRating == None
  {
    seq(|ms|, i requires 0 <= i < |ms| => FromMovie(ms[i]))
  }

  /** Rows saved to the cache and read back are the same rows with every
      user rating dropped. */
  lemma CacheRoundTrip(rows: seq<LocalMovieData>)
    ensures Decode(Encode(CacheProjection(rows))) == Some(CacheProjection(rows))
    ensures FromMovies(CacheProjection(rows)) == seq(|rows|, i requires 0 <= i < |rows| => rows[i].(userRating := None))
  {
    DecodeEncode(CacheProjection(rows));
    forall i | 0 <= i < |rows|
      ensures FromMovies(CacheProjection(rows))[i] == rows[i].(userRating := None)
    {
      ToMovieFromMovie(rows[i]);
    }
  }

  // ---------------------------------------------------------------------
  // Lists of objects
  // ---------------------------------------------------------------------

  /** The contents of a list of objects. */
  function Values(objs: seq<LocalMovie>): (vs: seq<LocalMovieData>)
    reads objs
    ensures |vs| == |objs|
  {
    seq(|objs|, i requires 0 <= i < |objs| reads objs => objs[i].Value())
  }

  /** A store of objects as values. */
  function Snapshot(st: map<string, LocalMovie>): (r: map<string, LocalMovieData>)
    reads st.Values
    ensures r.Keys == st.Keys
  {
    map k | k in st :: st[k].Value()
  }

  /** The ids of a list of objects. */
  function IdsOf(objs: seq<LocalMovie>): set<string>
    reads objs
  {
    set i | 0 <= i < |objs| :: objs[i].id
  }

  /** `rows` is a read of the store `st` in some order: each row is the
      object stored under its id, no id occurs twice and every stored id
      occurs. */
  predicate IsListing(rows: seq<LocalMovie>, st: map<string, LocalMovie>)
    reads rows
  {
    && (forall i | 0 <= i < |rows| :: rows[i].id in st && st[rows[i].id] == rows[i])
    && DistinctIds(Values(rows))
    && IdsOf(rows) == st.Keys
  }

  /** A row of a listing is the object its store holds under its id. */
  lemma ListedIsStored(rows: seq<LocalMovie>, st: map<string, LocalMovie>, o: LocalMovie)
    requires IsListing(rows, st) && o in rows
    ensures o.id in st && st[o.id] == o
  {
    var j :| 0 <= j < |rows| && rows[j] == o;
  }

  /** The ids of a list are those of all but its last row, plus the
      last row's. */
  lemma IdsOfSnoc(rows: seq<LocalMovie>)
    requires rows != []
    ensures IdsOf(rows) == IdsOf(rows[..|rows| - 1]) + {rows[|rows| - 1].id}
  {
    var init := rows[..|rows| - 1];
    forall k | k in IdsOf(rows) ensures k in IdsOf(init) + {rows[|rows| - 1].id} {
      var i :| 0 <= i < |rows| && rows[i].id == k;
      if i < |rows| - 1 { assert init[i].id == k; }
    }
    forall k | k in IdsOf(init) ensures k in IdsOf(rows) {
      var i :| 0 <= i < |init| && init[i].id == k;
      assert rows[i].id == k;
    }
  }

  /** A listing has one row per stored movie. */
  lemma {:induction false} ListingSize(rows: seq<LocalMovie>, st: map<string, LocalMovie>)
    requires DistinctIds(Values(rows))
    requires IdsOf(rows) == st.Keys
    ensures |rows| == |st|
  {
    if rows == [] {
      assert st.Keys == {};
    } else {
      var init := rows[..|rows| - 1];
      var last := rows[|rows| - 1].id;
      IdsOfSnoc(rows);
      assert Values(init) == Values(rows)[..|rows| - 1];
      assert last !in IdsOf(init) by {
        forall i | 0 <= i < |init| ensures init[i].id != last {
          assert Values(rows)[i].id != Values(rows)[|rows| - 1].id;
        }
      }
      assert IdsOf(init) == (st - {last}).Keys;
      ListingSize(init, st - {last});
    }
  }

  /** Removing a row from a listing of `st` leaves a listing of `st`
      without that row's id: deleting in place gives what a new read of
      the store would give, up to the store's choice of order. */
  lemma RemoveFromListing(rows: seq<LocalMovie>, st: map<string, LocalMovie>, i: nat)
    requires IsListing(rows, st) && i < |rows|
    ensures IsListing(rows[..i] + rows[i + 1..], st - {rows[i].id})
  {
    var id := rows[i].id;
    var r := rows[..i] + rows[i + 1..];
    var st' := st - {id};
    // Row j of r is row Old(j) of rows.
    assert forall j | 0 <= j < |r| :: r[j] == rows[if j < i then j else j + 1];
    forall j | 0 <= j < |r| ensures r[j].id in st' && st'[r[j].id] == r[j] {
      var o := if j < i then j else j + 1;
      assert Values(rows)[o].id != Values(rows)[i].id;
    }
    forall j, k | 0 <= j < k < |r| ensures Values(r)[j].id != Values(r)[k].id {
      var oj, ok := if j < i then j else j + 1, if k < i then k else k + 1;
      assert Values(rows)[oj].id != Values(rows)[ok].id;
    }
    forall x | x in IdsOf(r) ensures x in st'.Keys {
      var j :| 0 <= j < |r| && r[j].id == x;
    }
    forall x | x in st'.Keys ensures x in IdsOf(r) {
      assert x in IdsOf(rows);
      var j :| 0 <= j < |rows| && rows[j].id == x;
      assert j != i;
      var n := if j < i then j else j - 1;
      assert r[n] == rows[j];
    }
  }

  /** The rows of a listing carry distinct ids, so deleting one of them
      leaves none with its id (see RemoveFromDistinct). */
  lemma ListingDistinct(rows: seq<LocalMovie>, st: map<string, LocalMovie>)
    requires IsListing(rows, st)
    ensures DistinctIds(Values(rows))
    ensures forall k | k in st :: HasId(Values(rows), k)
  {
    forall k | k in st ensures HasId(Values(rows), k) {
      assert k in IdsOf(rows);
      var i :| 0 <= i < |rows| && rows[i].id == k;
      assert Values(rows)[i].id == k;
    }
  }

  // ---------------------------------------------------------------------
  // The screen
  // ---------------------------------------------------------------------

  /** The list screen. `movies` holds the rows shown; `store` is the
      persistent store, one `LocalMovie` per id; `cache` is the blob kept
      under "cachedMovies" in the user defaults, if any. The rows read
      from the store are the stored objects themselves, so a change to
      one of them is a change to the store. */
  class MovieListViewController {
    var movies: seq<LocalMovie>
    var store: map<string, LocalMovie>
    var cache: Option<Blob>

    /** The store holds at most one movie per id: each is filed under
        its own `id`. */
    ghost predicate Valid()
      reads this`store, store.Values
    {
      KeyedById(Stored())
    }

    /** The rows as values. */
    function Rows(): seq<LocalMovieData>
      reads this`movies, movies
    {
      Values(movies)
    }

    /** The store as values. */
    function Stored(): map<string, LocalMovieData>
      reads this`store, store.Values
    {
      Snapshot(store)
    }

    /** The movies the cache holds, when it holds something decodable. */
    function CachedMovies(): (ms: Option<seq<Movie>>)
      reads this`cache
      ensures ms.Some? <==> cache.Some? && Decode(cache.value).Some?
      ensures ms.Some? ==> cache.value == Encode(ms.value)
    {
      if cache.Some? && Decode(cache.value).Some? then
        EncodeDecode(cache.value, Decode(cache.value).value);
        Decode(cache.value)
      else
        None
    }

    /** A screen over a store and a cache left by earlier sessions; the
        list starts empty. */
    constructor (persisted: map<string, LocalMovie>, cached: Option<Blob>)
      requires KeyedById(Snapshot(persisted))
      ensures Valid()
      ensures movies == [] && store == persisted && cache == cached
    {
      movies := [];
      store := persisted;
      cache := cached;
    }

    /** `tableView(_:numberOfRowsInSection:)`: one row per movie. */
    function NumberOfRows(): (n: nat)
      reads this`movies, movies
      ensures n == |Rows()|
    {
      |movies|
    }

    /** `viewDidLoad`: the cache first, then the store, then the
        network. Each successful read replaces the rows the earlier one
        produced; the cache is only read. */
    method ViewDidLoad(firstRead: bool, fetched: Result<seq<Movie>, FetchError>, secondRead: bool)
      requires Valid()
      modifies this
      ensures Valid() && cache == old(cache)
      ensures Stored() == if fetched.Success? then Merge(old(Stored()), fetched.value) else old(Stored())
      ensures if fetched.Success? && secondRead then IsListing(movies, store)
              else if firstRead then IsListing(movies, old(store))
              else if old(CachedMovies()).Some? then Rows() == FromMovies(old(CachedMovies()).value)
              else movies == old(movies)
      ensures fetched.Success? ==>
                forall k | k in old(store) && k !in FeedIds(fetched.value) :: k in store && store[k] == old(store)[k]
      ensures fetched.Success? ==> forall k | k in FeedIds(fetched.value) :: k in store && fresh(store[k])
      ensures fetched.Failure? ==> store == old(store)
    {
      LoadMoviesFromCache();
      LoadMoviesFromStorage(firstRead);
      assert store == old(store) && Stored() == old(Stored()) && cache == old(cache);
      ghost var loaded := movies;
      assert firstRead ==> IsListing(loaded, old(store));
      FetchMovies(fetched, secondRead);
      assert !(fetched.Success? && secondRead) ==> movies == loaded;
    }

    /** `fetchMovies`, with the network's answer as a parameter. On
        success the feed is merged into the store and the rows are read
        again; on failure nothing changes. */
    method FetchMovies(fetched: Result<seq<Movie>, FetchError>, readSucceeds: bool)
      requires Valid()
      modifies this
      ensures Valid() && cache == old(cache)
      ensures fetched.Failure? ==> movies == old(movies) && store == old(store)
      ensures fetched.Success? ==> Stored() == Merge(old(Stored()), fetched.value)
      ensures fetched.Success? && readSucceeds ==> IsListing(movies, store)
      ensures fetched.Success? && !readSucceeds ==> movies == old(movies)
      ensures fetched.Success? ==>
                forall k | k in old(store) && k !in FeedIds(fetched.value) :: k in store && store[k] == old(store)[k]
      ensures fetched.Success? ==> forall k | k in FeedIds(fetched.value) :: k in store && fresh(store[k])
    {
      if fetched.Success? {
        SaveMoviesToStorage(fetched.value);
        LoadMoviesFromStorage(readSucceeds);
      }
    }

    /** `modelContext.insert(LocalMovie.from(movie: movie))`: a new object
        for the movie, filed under its id in place of any older one. */
    method Insert(movie: Movie)
      requires Valid()
      modifies this`store
      ensures Valid()
      ensures movie.id in store && fresh(store[movie.id])
      ensures store == old(store)[movie.id := store[movie.id]]
      ensures Stored() == old(Stored())[movie.id := FromMovie(movie)]
    {
      var local := new LocalMovie.From(movie);
      store := store[movie.id := local];
      assert Stored() == old(Stored())[movie.id := FromMovie(movie)];
    }

    /** `saveMoviesToStorage`: insert a new `LocalMovie` for every
        fetched movie. A failing save is only logged: the inserted
        objects stay in the store, which the next read returns. */
    method SaveMoviesToStorage(fetched: seq<Movie>)
      requires Valid()
      modifies this
      ensures Valid()
      ensures movies == old(movies) && cache == old(cache)
      ensures Stored() == Merge(old(Stored()), fetched)
      ensures forall k | k in old(store) && k !in FeedIds(fetched) :: k in store && store[k] == old(store)[k]
      ensures forall k | k in FeedIds(fetched) :: k in store && fresh(store[k])
    {
      var i := 0;
      while i < |fetched|
        invariant 0 <= i <= |fetched|
        invariant Valid()
        invariant movies == old(movies) && cache == old(cache)
        invariant Stored() == Merge(old(Stored()), fetched[..i])
        invariant forall k | k in old(store) && k !in FeedIds(fetched[..i]) :: k in store && store[k] == old(store)[k]
        invariant forall k | k in FeedIds(fetched[..i]) :: k in store && fresh(store[k])
      {
        Insert(fetched[i]);
        assert fetched[..i + 1][..i] == fetched[..i];
        FeedIdsSnoc(fetched[..i + 1]);
        i := i + 1;
      }
      assert fetched[..i] == fetched;
    }

    /** `modelContext.fetch(FetchDescriptor<LocalMovie>())` with no sort
        order: every stored movie once, in an order the store picks. */
    method FetchAll() returns (rows: seq<LocalMovie>)
      requires Valid()
      ensures IsListing(rows, store)
    {
      rows := [];
      var remaining := store.Keys;
      while remaining != {}
        invariant remaining <= store.Keys
        invariant forall i | 0 <= i < |rows| :: rows[i].id in store && store[rows[i].id] == rows[i]
        invariant forall i, j | 0 <= i < j < |rows| :: rows[i].id != rows[j].id
        invariant IdsOf(rows) == store.Keys - remaining
        decreases remaining
      {
        var k :| k in remaining;
        assert k !in IdsOf(rows);
        ghost var before := rows;
        rows := rows + [store[k]];
        assert rows[..|rows| - 1] == before;
        IdsOfSnoc(rows);
        remaining := remaining - {k};
      }
    }

    /** `loadMoviesFromStorage`: when the read succeeds the rows become
        the stored movies; when it fails they stay as they were. */
    method LoadMoviesFromStorage(readSucceeds: bool)
      requires Valid()
      modifies this`movies
      ensures Valid() && store == old(store) && cache == old(cache)
      ensures readSucceeds ==> IsListing(movies, store)
      ensures !readSucceeds ==> movies == old(movies)
    {
      if readSucceeds {
        movies := FetchAll();
      }
    }

    /** New objects for the movies read from the cache. */
    static method MakeLocalMovies(ms: seq<Movie>) returns (objs: seq<LocalMovie>)
      ensures Values(objs) == FromMovies(ms)
      ensures forall i | 0 <= i < |objs| :: fresh(objs[i])
    {
      objs := [];
      var i := 0;
      while i < |ms|
        invariant 0 <= i <= |ms|
        invariant |objs| == i
        invariant forall j | 0 <= j < i :: objs[j].Value() == FromMovie(ms[j])
        invariant forall j | 0 <= j < i :: fresh(objs[j])
      {
        var local := new LocalMovie.From(ms[i]);
        objs := objs + [local];
        i := i + 1;
      }
    }

    /** `loadMoviesFromCache`: when the cache holds a list that decodes,
        the rows become new objects for its movies, none with a user
        rating; otherwise nothing changes. */
    method LoadMoviesFromCache()
      requires Valid()
      modifies this`movies
      ensures Valid() && store == old(store) && cache == old(cache)
      ensures match CachedMovies()
              case Some(ms) => Rows() == FromMovies(ms) && forall i | 0 <= i < |movies| :: fresh(movies[i])
              case None => movies == old(movies)
    {
      if cache.Some? {
        var decoded := Decode(cache.value);
        if decoded.Some? {
          movies := MakeLocalMovies(decoded.value);
        }
      }
    }

    /** `saveMoviesToCache`: the cache becomes the encoding of the rows
        without their user ratings. */
    method SaveMoviesToCache()
      modifies this
      ensures movies == old(movies) && store == old(store)
      ensures cache == Some(Encode(CacheProjection(Rows())))
    {
      cache := Some(Encode(CacheProjection(Rows())));
    }

    /** `updateMovieRating`: the rating is set on the object at once; the
        cache is rewritten only when the save succeeds, and a failed save
        does not undo the change. */
    method UpdateMovieRating(movie: LocalMovie, rating: string, saveSucceeds: bool)
      requires Valid()
      modifies this, movie
      ensures Valid()
      ensures movie.Value() == old(movie.Value()).(userRating := Some(rating))
      ensures movies == old(movies) && store == old(store)
      ensures forall i | 0 <= i < |movies| ::
                Rows()[i] == if movies[i] == movie then old(Rows()[i]).(userRating := Some(rating))
                             else old(Rows()[i])
      ensures forall k | k in store ::
                Stored()[k] == if store[k] == movie then old(Stored()[k]).(userRating := Some(rating))
                               else old(Stored()[k])
      ensures cache == if saveSucceeds then Some(Encode(CacheProjection(Rows()))) else old(cache)
    {
      movie.userRating := Some(rating);
      if saveSucceeds {
        SaveMoviesToCache();
      }
    }

    /** The save action of the rating dialog: empty or missing text does
        nothing, text that passes the check becomes the rating exactly as
        typed, and any other text only raises the error alert. */
    method SubmitRating(movie: LocalMovie, text: Option<string>, saveSucceeds: bool)
      returns (outcome: RatingOutcome)
      requires Valid()
      modifies this, movie
      ensures Valid()
      ensures outcome == if text.None? || text.value == [] then NoInput
                         else if RatingText.IsValidRating(text.value) then Saved
                         else Rejected
      ensures outcome != Saved ==> unchanged(this, movie)
      ensures outcome == Saved ==>
                && movie.Value() == old(movie.Value()).(userRating := text)
                && movies == old(movies) && store == old(store)
                && cache == if saveSucceeds then Some(Encode(CacheProjection(Rows()))) else old(cache)
    {
      if text.Some? && text.value != [] {
        if RatingText.IsValidRating(text.value) {
          UpdateMovieRating(movie, text.value, saveSucceeds);
          outcome := Saved;
        } else {
          outcome := Rejected;
        }
      } else {
        outcome := NoInput;
      }
    }

    /** `movies.firstIndex(where: { $0.id == id })`. */
    method FirstIndex(id: string) returns (r: Option<nat>)
      ensures r.Some? ==> r.value < |movies| && movies[r.value].id == id
      ensures forall j | 0 <= j < |movies| && (r.None? || j < r.value) :: movies[j].id != id
      ensures r == if FirstIndexWithId(Rows(), id) < |movies| then Some(FirstIndexWithId(Rows(), id)) else None
    {
      var i := 0;
      while i < |movies|
        invariant 0 <= i <= |movies|
        invariant forall j | 0 <= j < i :: movies[j].id != id
        invariant forall j | 0 <= j < i :: Rows()[j].id != id
      {
        if movies[i].id == id {
          assert Rows()[i].id == id;
          assert forall j | 0 <= j < i :: Rows()[j].id != id;
          return Some(i);
        }
        i := i + 1;
      }
      return None;
    }

    /** `movies.remove(at:)`: the row at `i` leaves the list, the others
        keep their order. */
    method RemoveRow(i: nat)
      requires i < |movies|
      modifies this`movies
      ensures movies == old(movies)[..i] + old(movies)[i + 1..]
      ensures Rows() == old(Rows())[..i] + old(Rows())[i + 1..]
      ensures multiset(movies) <= multiset(old(movies))
    {
      assert movies == movies[..i] + [movies[i]] + movies[i + 1..];
      movies := movies[..i] + movies[i + 1..];
    }

    /** `modelContext.delete(movie)`: the object leaves the store when it
        is the one stored under its id. */
    method DeleteFromStore(movie: LocalMovie)
      requires Valid()
      modifies this`store
      ensures Valid()
      ensures store == if movie.id in old(store) && old(store)[movie.id] == movie
                       then old(store) - {movie.id} else old(store)
      ensures movie in movies && IsListing(movies, old(store)) ==> movie.id in old(store) && store == old(store) - {movie.id}
    {
      if movie in movies && IsListing(movies, store) {
        ListedIsStored(movies, store, movie);
      }
      if movie.id in store && store[movie.id] == movie {
        store := store - {movie.id};
      }
    }

    /** The list part of `deleteMovie`: find the first row with the id
        and remove it. Seen against a store `st` of which the rows were a
        listing, the rows become a listing of `st` without the id. */
    method RemoveFirstRow(id: string, ghost st: map<string, LocalMovie>)
      modifies this`movies
      ensures Rows() == RemoveFirstWithId(old(Rows()), id)
      ensures var k := FirstIndexWithId(old(Rows()), id);
              movies == if k < |old(movies)| then old(movies)[..k] + old(movies)[k + 1..] else old(movies)
      ensures multiset(movies) <= multiset(old(movies))
      ensures IsListing(old(movies), st) && id in st ==> IsListing(movies, st - {id})
    {
      var index := FirstIndex(id);
      if index.Some? {
        assert FirstIndexWithId(Rows(), id) == index.value;
        if IsListing(movies, st) {
          RemoveFromListing(movies, st, index.value);
        }
        RemoveFirstSplits(Rows(), id, index.value);
        RemoveRow(index.value);
      } else {
        assert FirstIndexWithId(Rows(), id) == |movies|;
        RemoveFirstAbsent(Rows(), id);
      }
    }

    /** `deleteMovie` once the save has succeeded: the object leaves the
        store and the first row with its id leaves the list. */
    method DeleteSaved(movie: LocalMovie)
      requires Valid()
      modifies this`store, this`movies
      ensures Valid()
      ensures store == if movie.id in old(store) && old(store)[movie.id] == movie
                       then old(store) - {movie.id} else old(store)
      ensures Rows() == RemoveFirstWithId(old(Rows()), movie.id)
      ensures var k := FirstIndexWithId(old(Rows()), movie.id);
              movies == if k < |old(movies)| then old(movies)[..k] + old(movies)[k + 1..] else old(movies)
      ensures multiset(movies) <= multiset(old(movies))
      ensures movie in old(movies) && old(IsListing(movies, store)) ==> IsListing(movies, store)
    {
      ghost var oldStore := store;
      DeleteFromStore(movie);
      assert movies == old(movies) && Rows() == old(Rows());
      RemoveFirstRow(movie.id, oldStore);
    }

    /** `deleteMovie`: the object leaves the store at once; only when the
        save succeeds is the first row with its id removed from the list.
        Deleting a row of a list read from the store leaves a list that
        is still a read of the store. */
    method DeleteMovie(movie: LocalMovie, saveSucceeds: bool)
      requires Valid()
      modifies this`store, this`movies
      ensures Valid() && cache == old(cache)
      ensures store == if movie.id in old(store) && old(store)[movie.id] == movie
                       then old(store) - {movie.id} else old(store)
      ensures Rows() == if saveSucceeds then RemoveFirstWithId(old(Rows()), movie.id) else old(Rows())
      ensures var k := FirstIndexWithId(old(Rows()), movie.id);
              movies == if saveSucceeds && k < |old(movies)| then old(movies)[..k] + old(movies)[k + 1..]
                        else old(movies)
      ensures multiset(movies) <= multiset(old(movies))
      ensures saveSucceeds && movie in old(movies) && old(IsListing(movies, store)) ==> IsListing(movies, store)
    {
      if saveSucceeds {
        DeleteSaved(movie);
      } else {
        DeleteFromStore(movie);
      }
    }
  }
}
