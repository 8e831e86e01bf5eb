/** The `/albums` HTTP routes. Unlike the storage service they read and
    write the JSON file directly: GET sorts what it returns, but POST, PUT
    and DELETE work on the records in file order. */
module AlbumRoutes {
  import opened Wrappers
  import opened Json
  import opened Http
  import opened Albums
  import opened Seqs
  import opened Sorting
  import AlbumStorage
  import Text

  type Store = AlbumStorage.Store

  /** The response sent and the file left behind. */
  datatype Handled = Handled(response: Response, store: Store)

  function Records(store: Store): seq<Album> {
    store.GetOr([])
  }

  /** GET /: the stored records ordered by title, or [] when the file is missing. */
  function Get(store: Store, collate: (string, string) -> int): (h: Handled)
    ensures h.store == store
    ensures store.None? ==> h.response == Ok(JArr([]))
    ensures h.response == Ok(JArr(ListJson(AlbumStorage.Read(store, collate))))
  {
    if store.None? then Handled(Ok(JArr([])), store)
    else Handled(Ok(JArr(ListJson(SortBy(store.value, ByTitle(collate))))), store)
  }

  /** A string field is truthy when present and non-empty. */
  predicate Given(f: Option<string>) {
    f.Some? && |f.value| > 0
  }

  /** The record POST stores: the client's id if truthy, else the timestamp;
      coverUrl defaults to ''; artist and deviceNames are not copied. */
  function NewRecord(body: AlbumPatch, now: nat): (r: Album)
    requires Given(body.title) && Given(body.uri)
    ensures r.id.Some? && r.id.value != ""
    ensures Given(body.id) ==> r.id == body.id
    ensures !Given(body.id) ==>
      && (forall i | 0 <= i < |r.id.value| :: Text.IsDigit(r.id.value[i]))
      && Text.ParseNat(r.id.value) == now
    ensures r.title == body.title.value && r.uri == body.uri.value
    ensures r.artist.None? && r.deviceNames.None?
  {
    Text.NatToStringRoundTrip(now);
    Album(
      Some(if Given(body.id) then body.id.value else Text.NatToString(now)),
      body.title.value,
      None,
      Some(if Given(body.coverUrl) then body.coverUrl.value else ""),
      body.uri.value,
      body.kind,
      None)
  }

  /** POST /: validates, rejects a duplicate uri with 409, otherwise appends the new record. */
  function Post(store: Store, body: AlbumPatch, now: nat): (h: Handled)
    ensures !Given(body.title) || !Given(body.uri) ==>
      h == Handled(Response(400, TextBody("Missing title or uri")), store)
    ensures Given(body.title) && Given(body.uri) ==>
      var existing := Find(Records(store), (a: Album) => a.uri == body.uri.value);
      && (existing.Some? ==>
            && h.store == store
            && h.response == Response(409, JsonBody(JObj(map["message" := JStr("Album already exists"), "album" := ToJson(existing.value)]))))
      && (existing.None? ==>
            var added := NewRecord(body, now);
            && h.store == Some(Records(store) + [added])
            && h.response == Ok(ToJson(added)))
  {
    if !Given(body.title) || !Given(body.uri) then
      Handled(Response(400, TextBody("Missing title or uri")), store)
    else
      var albums := Records(store);
      var existing := Find(albums, (a: Album) => a.uri == body.uri.value);
      if existing.Some? then
        Handled(Response(409, JsonBody(JObj(map["message" := JStr("Album already exists"), "album" := ToJson(existing.value)]))), store)
      else
        var added := NewRecord(body, now);
        Handled(Ok(ToJson(added)), Some(albums + [added]))
  }

  /** What POST stores carries exactly the five fields it copies. */
  lemma PostStoresFiveFields(store: Store, body: AlbumPatch, now: nat)
    requires Given(body.title) && Given(body.uri)
    requires forall i | 0 <= i < |Records(store)| :: Records(store)[i].uri != body.uri.value
    ensures var h := Post(store, body, now);
      && h.store.Some? && |h.store.value| == |Records(store)| + 1
      && var a := h.store.value[|h.store.value| - 1];
      && a.title == body.title.value && a.uri == body.uri.value && a.kind == body.kind
      && a.artist.None? && a.deviceNames.None?
      && a.coverUrl == Some(body.coverUrl.GetOr(""))
      && a.id == Some(if Given(body.id) then body.id.value else Text.NatToString(now))
  {
  }

  /** POST keeps the library's uris distinct. */
  lemma PostKeepsUrisDistinct(store: Store, body: AlbumPatch, now: nat)
    requires UrisDistinct(Records(store))
    ensures UrisDistinct(Records(Post(store, body, now).store))
  {
    var h := Post(store, body, now);
    if Given(body.title) && Given(body.uri) && h.store != store {
      var albums := Records(store);
      var added := NewRecord(body, now);
      DistinctKeysAppend(albums, added, UriOf);
      assert added.uri !in Keys(albums, UriOf);
    }
  }

  /** POST answers 409 exactly when the storage service would refuse the same uri. */
  lemma PostConflictMatchesStorage(store: Store, collate: (string, string) -> int, body: AlbumPatch, now: nat, album: Album)
    requires Given(body.title) && Given(body.uri) && album.uri == body.uri.value
    ensures Post(store, body, now).response.status == 409 <==> AlbumStorage.Add(store, collate, album, now).Failure?
  {
  }

  /** PUT /:id: 404 when the file is missing or no record has the id;
      otherwise merges the updates into the first such record, keeping the id. */
  function Put(store: Store, id: string, updates: AlbumPatch): (h: Handled)
    ensures store.None? ==> h == Handled(Response(404, TextBody("Albums file not found")), store)
    ensures store.Some? && (forall i | 0 <= i < |store.value| :: store.value[i].id != Some(id)) ==>
      h == Handled(Response(404, TextBody("Album not found")), store)
    ensures store.Some? && (exists i | 0 <= i < |store.value| :: store.value[i].id == Some(id)) ==>
      exists k | 0 <= k < |store.value| ::
        && store.value[k].id == Some(id)
        && (forall j | 0 <= j < k :: store.value[j].id != Some(id))
        && h.store == Some(store.value[k := MergeWithId(store.value[k], updates, id)])
        && h.response == Ok(ToJson(MergeWithId(store.value[k], updates, id)))
  {
    if store.None? then Handled(Response(404, TextBody("Albums file not found")), store)
    else
      var albums := store.value;
      var k := FindIndex(albums, (a: Album) => a.id == Some(id));
      if k > -1 then
        var updated := MergeWithId(albums[k], updates, id);
        Handled(Ok(ToJson(updated)), Some(albums[k := updated]))
      else
        Handled(Response(404, TextBody("Album not found")), store)
  }

  /** DELETE /:id: 204 when the file is missing (nothing written); 404 when no
      record has the id; otherwise removes every record with it and answers 204. */
  function Delete(store: Store, id: string): (h: Handled)
    ensures store.None? ==> h == Handled(Response(204, NoBody), None)
    ensures store.Some? && (forall i | 0 <= i < |store.value| :: store.value[i].id != Some(id)) ==>
      h == Handled(Response(404, JsonBody(JObj(map["message" := JStr("Album not found")]))), store)
    ensures store.Some? && (exists i | 0 <= i < |store.value| :: store.value[i].id == Some(id)) ==>
      h == Handled(Response(204, NoBody), Some(Filter(store.value, (a: Album) => a.id != Some(id))))
  {
    if store.None? then Handled(Response(204, NoBody), store)
    else
      var albums := store.value;
      var kept := Filter(albums, (a: Album) => a.id != Some(id));
      FilterKeepsLength(albums, (a: Album) => a.id != Some(id));
      if |kept| < |albums| then Handled(Response(204, NoBody), Some(kept))
      else Handled(Response(404, JsonBody(JObj(map["message" := JStr("Album not found")]))), store)
  }

  /** When the file exists, DELETE answers 404 exactly when the storage service's delete returns false. */
  lemma DeleteMatchesStorage(store: Store, collate: (string, string) -> int, id: string)
    requires store.Some?
    ensures Delete(store, id).response.status == 404 <==> !AlbumStorage.Delete(store, collate, id).0
  {
  }
}
