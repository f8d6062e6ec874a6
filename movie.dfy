/** The immutable feed record `Movie` and the `Codable` round trip the
    cache depends on. */
module Movies {
  import opened Wrappers

  /** One entry of the top-250 feed. Every field is a string, exactly as
      in the JSON feed; `id` is the identity key. */
  datatype Movie = Movie(
    id: string,
    rank: string,
    title: string,
    fullTitle: string,
    year: string,
    image: string,
    imDbRating: string,
    imDbRatingCount: string)

  /** The serialised form of a `[Movie]`: the fields of every movie in
      declaration order, one after another. It stands for the JSON data
      that `JSONEncoder` writes to and `JSONDecoder` reads from the cache. */
  type Blob = seq<string>

  /** The number of stored fields of a `Movie`. */
  const FieldCount := 8

  function Fields(m: Movie): (fs: seq<string>)
    ensures |fs| == FieldCount && fs[0] == m.id
  {
    [m.id, m.rank, m.title, m.fullTitle, m.year, m.image, m.imDbRating, m.imDbRatingCount]
  }

  /** Encoding a list of movies never fails. */
  function Encode(ms: seq<Movie>): (b: Blob)
    ensures |b| == FieldCount * |ms|
  {
    if ms == [] then [] else Fields(ms[0]) + Encode(ms[1..])
  }

  /** Decoding fails (a cache miss) when the data does not split into
      whole movies. */
  function Decode(b: Blob): (r: Option<seq<Movie>>)
    ensures r.Some? ==> |b| == FieldCount * |r.value|
  {
    if b == [] then Some([])
    else if |b| < FieldCount then None
    else
      match Decode(b[FieldCount..])
      case None => None
      case Some(rest) => Some([Movie(b[0], b[1], b[2], b[3], b[4], b[5], b[6], b[7])] + rest)
  }

  /** What is encoded decodes to the same list: the cache round-trips
      every field of every movie. */
  lemma {:induction false} DecodeEncode(ms: seq<Movie>)
    ensures Decode(Encode(ms)) == Some(ms)
  {
    if ms != [] {
      var b := Encode(ms);
      assert b[..FieldCount] == Fields(ms[0]);
      assert b[FieldCount..] == Encode(ms[1..]);
      DecodeEncode(ms[1..]);
      assert Movie(b[0], b[1], b[2], b[3], b[4], b[5], b[6], b[7]) == ms[0];
      assert [ms[0]] + ms[1..] == ms;
    }
  }

  /** Conversely, data that decodes is the encoding of what it decodes to. */
  lemma {:induction false} EncodeDecode(b: Blob, ms: seq<Movie>)
    requires Decode(b) == Some(ms)
    ensures Encode(ms) == b
  {
    if b != [] {
      EncodeDecode(b[FieldCount..], ms[1..]);
      assert b == b[..FieldCount] + b[FieldCount..];
    }
  }

  /** Data that does not split into whole movies is a cache miss. */
  lemma DecodeRejectsPartial(b: Blob)
    requires |b| % FieldCount != 0
    ensures Decode(b) == None
  {
  }
}
