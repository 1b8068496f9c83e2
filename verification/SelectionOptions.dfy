/** The input of a selection: ranked rows, and options as JavaScript numbers. */
module SelectionOptions {
  import opened Collections
  import opened PlaylistSelection

  datatype RankedRow<+T> = RankedRow(artist: string, track: T)

  /** A JavaScript number as far as Number.isFinite tells them apart. */
  datatype Number = Finite(value: real) | NotFinite

  datatype Options = Options(diversifyArtists: bool, maximumInitialArtistShare: Option<Number>, minimumDistinctArtists: Option<Number>)

  function KeyAt<T>(rows: seq<RankedRow<T>>, normalize: string -> string, i: nat): ArtistKey
    requires i < |rows|
  {
    if normalize(rows[i].artist) != "" then Named(normalize(rows[i].artist)) else Unnamed(i)
  }

  function KeysOf<T>(rows: seq<RankedRow<T>>, normalize: string -> string): (r: seq<ArtistKey>)
    ensures |r| == |rows| && forall i: nat | i < |rows| :: r[i] == KeyAt(rows, normalize, i)
  {
    seq(|rows|, i requires 0 <= i < |rows| => KeyAt(rows, normalize, i))
  }

  function Ceiling(x: real): int {
    -((-x).Floor)
  }

  function Clamp(x: int, low: int, high: int): int {
    if x < low then low else if x > high then high else x
  }

  function Limit(count: nat, maximumTracks: Number): (r: nat)
    ensures r <= count
  {
    match maximumTracks
    case NotFinite => count
    case Finite(value) => Clamp(value.Floor, 0, count)
  }

  function InitialShare(options: Options): (r: real)
    ensures 0.01 <= r <= 1.0
  {
    match options.maximumInitialArtistShare
    case Some(Finite(value)) => if value < 0.01 then 0.01 else if value > 1.0 then 1.0 else value
    case _ => 0.15
  }

  function InitialCap(options: Options, limit: nat): (r: nat)
    ensures r >= 1 && (limit >= 1 ==> r <= limit)
  {
    var scaled := limit as real * InitialShare(options);
    assert 0.0 <= scaled <= limit as real;
    if Ceiling(scaled) > 1 then Ceiling(scaled) else 1
  }

  function MinimumArtists(options: Options, limit: nat): (r: nat)
    ensures r <= limit
  {
    match options.minimumDistinctArtists
    case Some(Finite(value)) => Clamp(value.Floor, 0, limit)
    case _ => 0
  }

  predicate Diversifies(count: nat, maximumTracks: Number, options: Options) {
    maximumTracks.Finite? && options.diversifyArtists && 0 < Limit(count, maximumTracks) < count
  }
}
