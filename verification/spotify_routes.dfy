/** The `/spotify` routes: catalogue search, the albums of an artist and the
    albums on a playlist, each turned into album-shaped records and ordered
    for display. The Spotify Web API is a parameter: a search answer, or a
    function from page offset to the items of that page. */
module SpotifyRoutes {
  import opened Wrappers
  import opened Json
  import opened Http
  import opened Text
  import opened Seqs
  import opened Sorting
  import opened Albums

  /** An album, artist or playlist object of the Web API, reduced to the
      fields the routes read; `images` holds the image urls in order. */
  datatype Item = Item(id: string, name: string, artists: seq<string>, images: seq<string>, uri: string)

  /** One section of a search answer: `None` when the section is missing,
      with `None` entries for the `null` items the API may return. */
  type Section = Option<seq<Option<Item>>>

  datatype SearchBody = SearchBody(albums: Section, playlists: Section, artists: Section)

  /** A playlist entry: its track, and the track's album, may be missing. */
  datatype PlaylistItem = PlaylistItem(track: Option<Track>)
  datatype Track = Track(album: Option<Item>)

  function Head(xs: seq<string>): Option<string> {
    if |xs| == 0 then None else Some(xs[0])
  }

  // ---------------------------------------------------------------- titles

  /** `s[..k]` is one word, `s[k..j]` whitespace, and `s[j]` a digit. */
  ghost predicate WordSpaceDigitAt(s: string, k: nat, j: nat) {
    && 0 < k < j < |s|
    && (forall x | 0 <= x < k :: !IsWhitespace(s[x]))
    && (forall x | k <= x < j :: IsWhitespace(s[x]))
    && IsDigit(s[j])
  }

  /** The title matches `/^\S+\s+\d/`. */
  ghost predicate WordSpaceDigit(s: string) {
    exists k: nat, j: nat :: WordSpaceDigitAt(s, k, j)
  }

  /** The priority class of a title: 1 when it starts with a digit, 2 when
      it is one word, whitespace and a digit ("Folge 1"), 3 otherwise. */
  function GetPriority(s: string): (p: int)
    ensures p == 1 <==> |s| > 0 && IsDigit(s[0])
    ensures p == 2 <==> !(|s| > 0 && IsDigit(s[0])) && WordSpaceDigit(s)
    ensures p == 3 <==> !(|s| > 0 && IsDigit(s[0])) && !WordSpaceDigit(s)
  {
    if |s| > 0 && IsDigit(s[0]) then 1
    else
      WordSpaceDigitIsRuns(s);
      if RunsMatch(s) then 2 else 3
  }

  /** The maximal leading word and the maximal whitespace run after it are
      both non-empty, and a digit follows them. */
  predicate RunsMatch(s: string) {
    var k := NonSpaceRun(s);
    var m := SpaceRun(s[k..]);
    k >= 1 && m >= 1 && k + m < |s| && IsDigit(s[k + m])
  }

  /** The regular expression's backtracking search succeeds exactly when the
      maximal runs match. */
  lemma WordSpaceDigitIsRuns(s: string)
    ensures WordSpaceDigit(s) <==> RunsMatch(s)
  {
    if RunsMatch(s) {
      var k := NonSpaceRun(s);
      RunsGiveWitness(s, k, SpaceRun(s[k..]));
    }
    if !RunsMatch(s) {
      NoWitness(s);
    }
  }

  /** Without matching runs there is no match anywhere. */
  lemma NoWitness(s: string)
    requires !RunsMatch(s)
    ensures !WordSpaceDigit(s)
  {
    forall k: nat, j: nat ensures !WordSpaceDigitAt(s, k, j) {
      if WordSpaceDigitAt(s, k, j) {
        WitnessIsRuns(s, k, j);
      }
    }
  }

  lemma RunsGiveWitness(s: string, k: nat, m: nat)
    requires k == NonSpaceRun(s) && m == SpaceRun(s[k..])
    requires k >= 1 && m >= 1 && k + m < |s| && IsDigit(s[k + m])
    ensures WordSpaceDigitAt(s, k, k + m)
  {
    forall x | k <= x < k + m ensures IsWhitespace(s[x]) {
      assert s[x] == s[k..][x - k];
    }
  }

  lemma WitnessIsRuns(s: string, k: nat, j: nat)
    requires WordSpaceDigitAt(s, k, j)
    ensures NonSpaceRun(s) == k && SpaceRun(s[k..]) == j - k
  {
    NonSpaceRunIs(s, k);
    var t := s[k..];
    assert forall x | 0 <= x < |t| :: t[x] == s[k + x];
    DigitIsNotWhitespace(s[j]);
    SpaceRunIs(t, j - k);
  }

  lemma DigitIsNotWhitespace(c: char)
    requires IsDigit(c)
    ensures !IsWhitespace(c)
  {
  }

  /** `compareTitles`: by priority class first, then by the locale's collation. */
  function CompareTitles(collate: (string, string) -> int, a: string, b: string): (r: int)
    ensures GetPriority(a) < GetPriority(b) ==> r < 0
    ensures GetPriority(a) > GetPriority(b) ==> r > 0
    ensures GetPriority(a) == GetPriority(b) ==> r == collate(a, b)
  {
    ThenBy(GetPriority, collate, a, b)
  }

  /** Comparing titles is a consistent comparator whenever the collation is. */
  lemma CompareTitlesConsistent(collate: (string, string) -> int)
    requires Consistent(collate)
    ensures Consistent((a: string, b: string) => CompareTitles(collate, a, b))
  {
    ThenByConsistent(GetPriority, collate);
    assert forall a, b :: CompareTitles(collate, a, b) == ThenBy(GetPriority, collate, a, b);
  }

  /** Album records ordered by `compareTitles` on their titles. */
  function ByTitles(collate: (string, string) -> int): (Album, Album) -> int {
    (a: Album, b: Album) => CompareTitles(collate, a.title, b.title)
  }

  lemma ByTitlesConsistent(collate: (string, string) -> int)
    requires Consistent(collate)
    ensures Consistent(ByTitles(collate))
  {
    CompareTitlesConsistent(collate);
    OnFieldConsistent((a: Album) => a.title, (a: string, b: string) => CompareTitles(collate, a, b));
  }

  // ---------------------------------------------------------------- search

  /** `typePriority[type] || 99`. */
  function TypeRank(a: Album): int {
    if a.kind == Some("artist") then 1
    else if a.kind == Some("playlist") then 2
    else if a.kind == Some("album") then 3
    else 99
  }

  /** The search comparator: artists, then playlists, then albums, then by `compareTitles`. */
  function SearchOrder(collate: (string, string) -> int): (Album, Album) -> int {
    (a: Album, b: Album) => ThenBy(TypeRank, ByTitles(collate), a, b)
  }

  /** `item && item.name`. */
  predicate Usable(o: Option<Item>) {
    o.Some? && |o.value.name| > 0
  }

  /** The usable items of a section, in order; a missing section gives none. */
  function Hits(section: Section): (r: seq<Item>)
    ensures forall i | 0 <= i < |r| :: |r[i].name| > 0
  {
    if section.None? then []
    else
      var kept := Filter(section.value, Usable);
      Map(kept, (o: Option<Item>) requires o.Some? => o.value)
  }

  function AlbumHit(i: Item): Album {
    Album(None, i.name, Head(i.artists), Head(i.images), i.uri, Some("album"), None)
  }

  function PlaylistHit(i: Item): Album {
    Album(Some(i.id), i.name, None, Head(i.images), i.uri, Some("playlist"), None)
  }

  function ArtistHit(i: Item): Album {
    Album(Some(i.id), i.name, None, Head(i.images), i.uri, Some("artist"), None)
  }

  /** The records built from the search answer, before sorting. */
  function Combined(body: SearchBody): seq<Album> {
    Map(Hits(body.albums), AlbumHit) + Map(Hits(body.playlists), PlaylistHit) + Map(Hits(body.artists), ArtistHit)
  }

  /** What GET /search answers, and the query it sent to the API, if any. */
  datatype Searched = Searched(response: Response, query: Option<string>)

  function RecordsJson(albums: seq<Album>): Value {
    JArr(ListJson(albums))
  }

  /** GET /search: 400 without calling the API when `q` is missing or empty;
      otherwise the combined records sorted by type, then title. */
  function Search(q: Option<string>, api: string -> Result<SearchBody, string>, collate: (string, string) -> int): (r: Searched)
    ensures (q.None? || q.value == "") ==> r == Searched(Response(400, TextBody("Missing query")), None)
    ensures q.Some? && q.value != "" ==> r.query == q
    ensures q.Some? && q.value != "" && api(q.value).Failure? ==>
      r.response == Response(500, TextBody("Error searching Spotify: " + api(q.value).error))
    ensures q.Some? && q.value != "" && api(q.value).Success? ==>
      r.response == Ok(RecordsJson(SearchResults(api(q.value).value, collate)))
  {
    if q.None? || q.value == "" then Searched(Response(400, TextBody("Missing query")), None)
    else
      match api(q.value)
      case Failure(msg) => Searched(Response(500, TextBody("Error searching Spotify: " + msg)), q)
      case Success(body) => Searched(Ok(RecordsJson(SearchResults(body, collate))), q)
  }

  /** The records the search answers with. */
  function SearchResults(body: SearchBody, collate: (string, string) -> int): (r: seq<Album>)
    ensures multiset(r) == multiset(Combined(body))
  {
    SortBy(Combined(body), SearchOrder(collate))
  }

  /** Search results list all artists, then all playlists, then all albums,
      each group ordered by `compareTitles`. */
  lemma SearchResultsOrdered(body: SearchBody, collate: (string, string) -> int)
    requires Consistent(collate)
    ensures var r := SearchResults(body, collate);
      && (forall i, j | 0 <= i < j < |r| :: TypeRank(r[i]) <= TypeRank(r[j]))
      && (forall i, j | 0 <= i < j < |r| && TypeRank(r[i]) == TypeRank(r[j]) :: CompareTitles(collate, r[i].title, r[j].title) <= 0)
  {
    var order := SearchOrder(collate);
    ByTitlesConsistent(collate);
    ThenByConsistent(TypeRank, ByTitles(collate));
    SortBySorted(Combined(body), order);
    ThenBySorted(SearchResults(body, collate), order, TypeRank, ByTitles(collate));
  }

  /** A record the search may answer with: a non-empty title and a known type. */
  predicate UsableHit(a: Album) {
    |a.title| > 0 && TypeRank(a) in {1, 2, 3}
  }

  /** Every search result is a usable hit. */
  lemma SearchResultsUsable(body: SearchBody, collate: (string, string) -> int)
    ensures forall a | a in SearchResults(body, collate) :: UsableHit(a)
  {
    var c := Combined(body);
    CombinedUsable(body);
    assert multiset(SearchResults(body, collate)) == multiset(c);
    forall a | a in SearchResults(body, collate) ensures UsableHit(a) {
      assert a in multiset(c);
    }
  }

  lemma CombinedUsable(body: SearchBody)
    ensures forall a | a in Combined(body) :: UsableHit(a)
  {
    var al := Map(Hits(body.albums), AlbumHit);
    var pl := Map(Hits(body.playlists), PlaylistHit);
    var ar := Map(Hits(body.artists), ArtistHit);
    assert forall a | a in al :: UsableHit(a);
    assert forall a | a in pl :: UsableHit(a);
    assert forall a | a in ar :: UsableHit(a);
    assert Combined(body) == al + pl + ar;
  }

  // ---------------------------------------------------------------- paging

  const PageSize: nat := 50

  /** The items of the first `n` pages, concatenated. */
  function Pages<T>(fetch: nat -> seq<T>, n: nat): seq<T> {
    if n == 0 then [] else Pages(fetch, n - 1) + fetch(PageSize * (n - 1))
  }

  /** The stopping rule of the paging loop: `n` requests were made when every
      page but the last came back full, and the last came back short unless
      the eleventh request ended the loop. */
  predicate StopsAfter<T>(fetch: nat -> seq<T>, n: nat) {
    && 1 <= n <= 11
    && (forall k | 0 <= k < n - 1 :: |fetch(PageSize * k)| >= PageSize)
    && (n < 11 ==> |fetch(PageSize * (n - 1))| < PageSize)
  }

  /** The answers of the API decide how many pages the loop requests. */
  lemma StopsAfterIsUnique<T>(fetch: nat -> seq<T>, n: nat, m: nat)
    requires StopsAfter(fetch, n) && StopsAfter(fetch, m)
    ensures n == m
  {
  }

  /** The paging loop of the artist and playlist routes: request pages of 50
      until one comes back short or the offset passes 500. */
  method FetchAllPages<T>(fetch: nat -> seq<T>) returns (items: seq<T>, requests: nat)
    ensures 1 <= requests <= 11
    ensures items == Pages(fetch, requests)
    ensures forall k | 0 <= k < requests - 1 :: |fetch(PageSize * k)| >= PageSize
    ensures requests < 11 ==> |fetch(PageSize * (requests - 1))| < PageSize
    ensures StopsAfter(fetch, requests)
  {
    items := [];
    requests := 0;
    var offset := 0;
    var keepGoing := true;
    while keepGoing
      invariant requests <= 11
      invariant items == Pages(fetch, requests)
      invariant keepGoing ==> offset == PageSize * requests <= 500
      invariant keepGoing ==> forall k | 0 <= k < requests :: |fetch(PageSize * k)| >= PageSize
      invariant !keepGoing ==> requests >= 1 && forall k | 0 <= k < requests - 1 :: |fetch(PageSize * k)| >= PageSize
      invariant !keepGoing && requests < 11 ==> |fetch(PageSize * (requests - 1))| < PageSize
      decreases 11 - requests + (if keepGoing then 1 else 0)
    {
      var page := fetch(offset);
      items := items + page;
      requests := requests + 1;
      if |page| < PageSize {
        keepGoing := false;
      } else {
        offset := offset + PageSize;
      }
      if offset > 500 {
        keepGoing := false;
      }
    }
  }

  /** GET /artist/:id/albums: every page's items as album records, ordered by `compareTitles`. */
  method ArtistAlbums(fetch: nat -> seq<Item>, collate: (string, string) -> int) returns (albums: seq<Album>, pages: nat)
    ensures StopsAfter(fetch, pages)
    ensures multiset(albums) == multiset(Map(Pages(fetch, pages), AlbumHit))
    ensures forall i | 0 <= i < |albums| :: AlbumRecord(albums[i])
    ensures Consistent(collate) ==> Sorted(albums, ByTitles(collate))
  {
    var items;
    items, pages := FetchAllPages(fetch);
    var records := Map(items, AlbumHit);
    albums := SortBy(records, ByTitles(collate));
    assert forall i | 0 <= i < |albums| :: AlbumRecord(albums[i]) by {
      HitsAreAlbumRecords(items);
      AllOfPermutation(records, albums, AlbumRecord);
    }
    if Consistent(collate) {
      ByTitlesConsistent(collate);
      SortBySorted(records, ByTitles(collate));
    }
  }

  lemma HitsAreAlbumRecords(items: seq<Item>)
    ensures forall i | 0 <= i < |items| :: AlbumRecord(Map(items, AlbumHit)[i])
  {
  }

  /** An album record as the album endpoints build it: typed "album", without an id. */
  predicate AlbumRecord(a: Album) {
    a.kind == Some("album") && a.id.None?
  }

  function IdOf(i: Item): string {
    i.id
  }

  predicate HasAlbum(p: PlaylistItem) {
    p.track.Some? && p.track.value.album.Some?
  }

  /** The albums of the tracks that have one, in playlist order. */
  function TrackAlbums(items: seq<PlaylistItem>): seq<Item> {
    Map(Filter(items, HasAlbum), (p: PlaylistItem) requires HasAlbum(p) => p.track.value.album.value)
  }

  /** One album per album id, each the first occurrence, in order of first occurrence. */
  function DistinctAlbums(items: seq<PlaylistItem>): (r: seq<Item>)
    ensures DistinctKeys(r, IdOf)
    ensures Keys(r, IdOf) == Keys(TrackAlbums(items), IdOf)
    ensures forall i | 0 <= i < |r| :: FirstWithKey(TrackAlbums(items), IdOf, r[i].id) == Some(r[i])
  {
    KeepFirstKeepsFirst(TrackAlbums(items), IdOf);
    KeepFirst(TrackAlbums(items), IdOf)
  }

  /** GET /playlist/:id/albums: one record per album id of the fetched tracks, ordered by `compareTitles`. */
  method PlaylistAlbums(fetch: nat -> seq<PlaylistItem>, collate: (string, string) -> int) returns (albums: seq<Album>, pages: nat)
    ensures StopsAfter(fetch, pages)
    ensures multiset(albums) == multiset(Map(DistinctAlbums(Pages(fetch, pages)), AlbumHit))
    ensures Consistent(collate) ==> Sorted(albums, ByTitles(collate))
  {
    var items;
    items, pages := FetchAllPages(fetch);
    var records := Map(DistinctAlbums(items), AlbumHit);
    albums := SortBy(records, ByTitles(collate));
    if Consistent(collate) {
      ByTitlesConsistent(collate);
      SortBySorted(records, ByTitles(collate));
    }
  }
}
