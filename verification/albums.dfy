/** The album record shared by the backend's JSON file and the frontend, and
    the partial update a client may send for it. */
module Albums {
  import opened Wrappers
  import opened Json
  import Seqs

  /** One favourite: an album, artist or playlist identified by its Spotify
      URI. `kind` is the record's `type` field ('album', 'artist' or 'playlist'). */
  datatype Album = Album(
    id: Option<string>,
    title: string,
    artist: Option<string>,
    coverUrl: Option<string>,
    uri: string,
    kind: Option<string>,
    deviceNames: Option<seq<string>>)

  /** A JSON object carrying any subset of the album's fields. */
  datatype AlbumPatch = AlbumPatch(
    id: Option<string>,
    title: Option<string>,
    artist: Option<string>,
    coverUrl: Option<string>,
    uri: Option<string>,
    kind: Option<string>,
    deviceNames: Option<seq<string>>)

  function Overlay<T>(base: Option<T>, top: Option<T>): Option<T> {
    if top.Some? then top else base
  }

  /** `{ ...a, ...p, id }`: the fields present in `p` replace those of `a`,
      and the id is forced to `id`. */
  function MergeWithId(a: Album, p: AlbumPatch, id: string): Album {
    Album(
      Some(id),
      p.title.GetOr(a.title),
      Overlay(a.artist, p.artist),
      Overlay(a.coverUrl, p.coverUrl),
      p.uri.GetOr(a.uri),
      Overlay(a.kind, p.kind),
      Overlay(a.deviceNames, p.deviceNames))
  }

  /** The patch with no fields. */
  const EmptyPatch := AlbumPatch(None, None, None, None, None, None, None)

  /** An empty patch changes nothing but the id. */
  lemma MergeEmptyPatch(a: Album, id: string)
    ensures MergeWithId(a, EmptyPatch, id) == a.(id := Some(id))
  {
  }

  /** Applying the same update twice is applying it once. */
  lemma MergeTwice(a: Album, p: AlbumPatch, id: string)
    ensures MergeWithId(MergeWithId(a, p, id), p, id) == MergeWithId(a, p, id)
  {
  }

  /** A patch carrying every field leaves nothing of the old record. */
  lemma MergeFullPatch(a: Album, b: Album, p: AlbumPatch, id: string)
    requires p.title.Some? && p.artist.Some? && p.coverUrl.Some? && p.uri.Some?
    requires p.kind.Some? && p.deviceNames.Some?
    ensures MergeWithId(a, p, id) == MergeWithId(b, p, id)
    ensures MergeWithId(a, p, id).uri == p.uri.value && MergeWithId(a, p, id).id == Some(id)
  {
  }

  function OptionalField(key: string, v: Option<Value>): map<string, Value> {
    if v.Some? then map[key := v.value] else map[]
  }

  function StringsJson(xs: seq<string>): seq<Value> {
    if |xs| == 0 then [] else [JStr(xs[0])] + StringsJson(xs[1..])
  }

  /** The JSON object the record serialises to; absent fields are omitted. */
  function ToJson(a: Album): Value {
    JObj(
      map["title" := JStr(a.title), "uri" := JStr(a.uri)]
      + OptionalField("id", if a.id.Some? then Some(JStr(a.id.value)) else None)
      + OptionalField("artist", if a.artist.Some? then Some(JStr(a.artist.value)) else None)
      + OptionalField("coverUrl", if a.coverUrl.Some? then Some(JStr(a.coverUrl.value)) else None)
      + OptionalField("type", if a.kind.Some? then Some(JStr(a.kind.value)) else None)
      + OptionalField("deviceNames", if a.deviceNames.Some? then Some(JArr(StringsJson(a.deviceNames.value))) else None))
  }

  function ListJson(albums: seq<Album>): seq<Value> {
    if |albums| == 0 then [] else [ToJson(albums[0])] + ListJson(albums[1..])
  }

  /** The title comparator `(a, b) => a.title.localeCompare(b.title)`,
      given the locale's string collation. */
  function ByTitle(collate: (string, string) -> int): (Album, Album) -> int {
    (a: Album, b: Album) => collate(a.title, b.title)
  }

  function UriOf(a: Album): string {
    a.uri
  }

  /** No two albums share a uri: the library's uniqueness rule. */
  predicate UrisDistinct(albums: seq<Album>) {
    Seqs.DistinctKeys(albums, UriOf)
  }
}
