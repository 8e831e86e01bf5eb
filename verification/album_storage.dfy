/** The album library kept in a JSON file. The file is a value: `None` when
    it does not exist, otherwise the list of records it holds (an empty file
    reads as the empty list). Every operation reads the file, which sorts the
    records by title, and writes back the list it computed. */
module AlbumStorage {
  import opened Wrappers
  import opened Albums
  import opened Seqs
  import opened Sorting
  import Text

  type Store = Option<seq<Album>>

  datatype StorageError = AlreadyExists | NotFound

  /** The message of the `Error` the operation throws. */
  function Message(e: StorageError): string {
    match e
    case AlreadyExists => "Album already exists"
    case NotFound => "Album not found"
  }

  /** The records in the file, in file order (none when the file is missing). */
  function Stored(store: Store): seq<Album> {
    store.GetOr([])
  }

  /** `read()`: the stored records ordered by title; a missing file reads as []. */
  function Read(store: Store, collate: (string, string) -> int): (albums: seq<Album>)
    ensures store.None? ==> albums == []
    ensures multiset(albums) == multiset(Stored(store))
  {
    if store.None? then [] else SortBy(store.value, ByTitle(collate))
  }

  /** The list `read()` returns is ordered by title under any consistent collation. */
  lemma ReadIsOrderedByTitle(store: Store, collate: (string, string) -> int)
    requires Consistent(collate)
    ensures Sorted(Read(store, collate), ByTitle(collate))
  {
    OnFieldConsistent((a: Album) => a.title, collate);
    assert ByTitle(collate) == (a: Album, b: Album) => collate(a.title, b.title);
    if store.Some? {
      SortBySorted(store.value, ByTitle(collate));
    }
  }

  /** Whether some stored record has this uri; reading does not change membership. */
  predicate HasUri(store: Store, uri: string) {
    exists i | 0 <= i < |Stored(store)| :: Stored(store)[i].uri == uri
  }

  predicate HasId(store: Store, id: string) {
    exists i | 0 <= i < |Stored(store)| :: Stored(store)[i].id == Some(id)
  }

  /** `findById`: the first record, in title order, whose id is `id`. */
  function FindById(store: Store, collate: (string, string) -> int, id: string): (r: Option<Album>)
    ensures r.None? <==> !HasId(store, id)
    ensures r.Some? ==> var albums := Read(store, collate);
      exists i | 0 <= i < |albums| :: albums[i] == r.value && r.value.id == Some(id)
        && forall j | 0 <= j < i :: albums[j].id != Some(id)
  {
    var albums := Read(store, collate);
    ReadSatisfies(store, collate, (a: Album) => a.id == Some(id));
    Find(albums, (a: Album) => a.id == Some(id))
  }

  /** `findByUri`: the first record, in title order, whose uri is `uri`. */
  function FindByUri(store: Store, collate: (string, string) -> int, uri: string): (r: Option<Album>)
    ensures r.None? <==> !HasUri(store, uri)
    ensures r.Some? ==> var albums := Read(store, collate);
      exists i | 0 <= i < |albums| :: albums[i] == r.value && r.value.uri == uri
        && forall j | 0 <= j < i :: albums[j].uri != uri
  {
    var albums := Read(store, collate);
    ReadSatisfies(store, collate, (a: Album) => a.uri == uri);
    Find(albums, (a: Album) => a.uri == uri)
  }

  /** Reading only reorders: some record read satisfies `p` exactly when some stored record does. */
  lemma ReadSatisfies(store: Store, collate: (string, string) -> int, p: Album -> bool)
    ensures (exists i | 0 <= i < |Read(store, collate)| :: p(Read(store, collate)[i]))
        <==> (exists i | 0 <= i < |Stored(store)| :: p(Stored(store)[i]))
  {
    var albums := Read(store, collate);
    SameMembers(store, collate);
    if i :| 0 <= i < |albums| && p(albums[i]) {
      assert albums[i] in Stored(store);
    }
    if i :| 0 <= i < |Stored(store)| && p(Stored(store)[i]) {
      assert Stored(store)[i] in albums;
    }
  }

  /** Reading only reorders: a record is read exactly when it is stored. */
  lemma SameMembers(store: Store, collate: (string, string) -> int)
    ensures forall a :: a in Read(store, collate) <==> a in Stored(store)
  {
    var albums := Read(store, collate);
    forall a ensures a in albums <==> a in Stored(store) {
      assert a in albums <==> a in multiset(albums);
      assert a in Stored(store) <==> a in multiset(Stored(store));
    }
  }

  /** `add(album)`: rejects a record whose uri is already stored; otherwise
      gives it the timestamp id (unless the record carries its own id, which
      the object spread lets win) and appends it to the list that was read. */
  function Add(store: Store, collate: (string, string) -> int, album: Album, now: nat): (r: Result<(Album, Store), StorageError>)
    ensures r.Failure? <==> HasUri(store, album.uri)
    ensures r.Failure? ==> r.error == AlreadyExists
    ensures r.Success? ==>
      var (added, written) := r.value;
      && added == album.(id := if album.id.Some? then album.id else Some(Text.NatToString(now)))
      && written == Some(Read(store, collate) + [added])
      && |Stored(written)| == |Stored(store)| + 1
  {
    var albums := Read(store, collate);
    ReadSatisfies(store, collate, (a: Album) => a.uri == album.uri);
    if Any(albums, (a: Album) => a.uri == album.uri) then
      Failure(AlreadyExists)
    else
      var added := album.(id := if album.id.Some? then album.id else Some(Text.NatToString(now)));
      Success((added, Some(albums + [added])))
  }

  /** A library whose uris are distinct stays so after any `add`. */
  lemma AddKeepsUrisDistinct(store: Store, collate: (string, string) -> int, album: Album, now: nat)
    requires UrisDistinct(Stored(store))
    ensures Add(store, collate, album, now).Success? ==> UrisDistinct(Stored(Add(store, collate, album, now).value.1))
  {
    var r := Add(store, collate, album, now);
    if r.Success? {
      var albums := Read(store, collate);
      DistinctKeysOfPermutation(Stored(store), albums, UriOf);
      DistinctKeysAppend(albums, r.value.0, UriOf);
      KeysOfPermutation(Stored(store), albums, UriOf);
      assert album.uri !in Keys(albums, UriOf);
    }
  }

  /** `update(id, updates)`: merges the updates into the first record (in
      title order) with that id, keeping the id; fails without writing when no
      record has it. */
  function Update(store: Store, collate: (string, string) -> int, id: string, updates: AlbumPatch): (r: Result<(Album, Store), StorageError>)
    ensures r.Failure? <==> !HasId(store, id)
    ensures r.Failure? ==> r.error == NotFound
    ensures r.Success? ==>
      var albums := Read(store, collate);
      var (updated, written) := r.value;
      && updated.id == Some(id)
      && written.Some? && |written.value| == |albums|
      && exists k | 0 <= k < |albums| ::
           && albums[k].id == Some(id)
           && (forall j | 0 <= j < k :: albums[j].id != Some(id))
           && updated == MergeWithId(albums[k], updates, id)
           && written.value == albums[k := updated]
  {
    var albums := Read(store, collate);
    ReadSatisfies(store, collate, (a: Album) => a.id == Some(id));
    var k := FindIndex(albums, (a: Album) => a.id == Some(id));
    if k == -1 then
      Failure(NotFound)
    else
      var updated := MergeWithId(albums[k], updates, id);
      Success((updated, Some(albums[k := updated])))
  }

  /** `delete(id)`: removes every record with that id and keeps the others in
      (title) order; returns false and writes nothing when none has it. */
  function Delete(store: Store, collate: (string, string) -> int, id: string): (r: (bool, Store))
    ensures !r.0 <==> !HasId(store, id)
    ensures !r.0 ==> r.1 == store
    ensures r.0 ==> r.1 == Some(Filter(Read(store, collate), (a: Album) => a.id != Some(id)))
  {
    var albums := Read(store, collate);
    ReadSatisfies(store, collate, (a: Album) => a.id == Some(id));
    var filtered := Filter(albums, (a: Album) => a.id != Some(id));
    FilterKeepsLength(albums, (a: Album) => a.id != Some(id));
    if |filtered| == |albums| then
      (false, store)
    else
      (true, Some(filtered))
  }

  /** After a successful delete no record with that id is left, and every other record is kept. */
  lemma DeleteRemovesExactly(store: Store, collate: (string, string) -> int, id: string, a: Album)
    requires Delete(store, collate, id).0
    ensures a in Stored(Delete(store, collate, id).1) <==> a in Stored(store) && a.id != Some(id)
  {
    SameMembers(store, collate);
    FilterMembership(Read(store, collate), (a: Album) => a.id != Some(id), a);
  }
}
