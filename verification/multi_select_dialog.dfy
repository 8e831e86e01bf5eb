/** The dialog for picking several search results at once: the selection
    (a set of uris kept in step with the list of selected records), bulk
    selection, the grouping of results by type, the expandable rows whose
    children are fetched on demand, and the room assignment of the picked
    records. Object identity is modelled as value equality. */
module MultiSelectDialog {
  import opened Wrappers
  import opened Seqs
  import opened Albums

  datatype Dialog = Dialog(
    results: seq<Album>,
    selectedUris: set<string>,
    selected: seq<Album>,
    existingUris: set<string>,
    expanded: Option<Album>,
    children: map<string, seq<Album>>,
    loading: set<string>,
    rooms: seq<string>,
    defaultRooms: seq<string>,
    roomsFor: map<string, seq<string>>)

  /** The selection invariant: the uri set is exactly the uris of the list,
      the list has one record per uri, and nothing already in the library is
      selected. */
  predicate Valid(d: Dialog) {
    && d.selectedUris == Keys(d.selected, UriOf)
    && DistinctKeys(d.selected, UriOf)
    && forall i | 0 <= i < |d.selected| :: d.selected[i].uri !in d.existingUris
  }

  /** The dialog as it opens, given the uris already in the library. */
  function Open(existing: Option<set<string>>): (d: Dialog)
    ensures Valid(d) && d.selected == [] && d.existingUris == existing.GetOr({})
  {
    Dialog([], {}, [], existing.GetOr({}), None, map[], {}, [], [], map[])
  }

  /** Whether the dialog would only change its selection fields. */
  predicate SelectionOnly(d: Dialog, r: Dialog) {
    r == d.(selectedUris := r.selectedUris, selected := r.selected)
  }

  // ---------------------------------------------------------- toggling

  /** `toggleSelection`: already-added records are ignored; a selected uri is
      deselected (its first record removed from the list); any other record
      is appended. */
  function Toggle(d: Dialog, album: Album): (r: Dialog)
    requires Valid(d)
    ensures Valid(r) && SelectionOnly(d, r)
    ensures album.uri in d.existingUris ==> r == d
    ensures album.uri !in d.existingUris ==>
      (album.uri in r.selectedUris <==> album.uri !in d.selectedUris)
    ensures r.selectedUris - {album.uri} == d.selectedUris - {album.uri}
    ensures album.uri !in d.existingUris && album.uri in d.selectedUris ==>
      exists k | 0 <= k < |d.selected| && d.selected[k].uri == album.uri ::
        r.selected == d.selected[..k] + d.selected[k + 1..]
    ensures album.uri !in d.existingUris && album.uri !in d.selectedUris ==> r.selected == d.selected + [album]
  {
    if album.uri in d.existingUris then d
    else if album.uri in d.selectedUris then Deselect(d, album.uri)
    else Select(d, album)
  }

  /** Records with the given uri. */
  function HasUri(uri: string): Album -> bool {
    (a: Album) => a.uri == uri
  }

  /** Drops the first selected record with the uri, and the uri. */
  function Deselect(d: Dialog, uri: string): (r: Dialog)
    requires Valid(d) && uri in d.selectedUris
    ensures Valid(r) && SelectionOnly(d, r)
    ensures r.selectedUris == d.selectedUris - {uri}
    ensures exists k | 0 <= k < |d.selected| && d.selected[k].uri == uri ::
      r.selected == d.selected[..k] + d.selected[k + 1..]
  {
    var k := FindIndex(d.selected, HasUri(uri));
    var j :| 0 <= j < |d.selected| && UriOf(d.selected[j]) == uri;
    assert HasUri(uri)(d.selected[j]);
    RemoveAt(d.selected, k, UriOf);
    var rest := d.selected[..k] + d.selected[k + 1..];
    KeptAfterRemoval(d.selected, k, d.existingUris);
    assert d.selected[k].uri == uri by {
      assert HasUri(uri)(d.selected[k]);
    }
    d.(selectedUris := d.selectedUris - {uri}, selected := rest)
  }

  /** Removing one record keeps every remaining uri outside the library. */
  lemma KeptAfterRemoval(s: seq<Album>, k: nat, existing: set<string>)
    requires k < |s|
    requires forall i | 0 <= i < |s| :: s[i].uri !in existing
    ensures var rest := s[..k] + s[k + 1..]; forall i | 0 <= i < |rest| :: rest[i].uri !in existing
  {
    var rest := s[..k] + s[k + 1..];
    forall i | 0 <= i < |rest| ensures rest[i].uri !in existing {
      if i < k {
        assert rest[i] == s[i];
      } else {
        assert rest[i] == s[i + 1];
      }
    }
  }

  /** Appends a record whose uri is neither selected nor in the library. */
  function Select(d: Dialog, album: Album): (r: Dialog)
    requires Valid(d) && album.uri !in d.selectedUris && album.uri !in d.existingUris
    ensures Valid(r) && SelectionOnly(d, r)
    ensures r.selectedUris == d.selectedUris + {album.uri}
    ensures r.selected == d.selected + [album]
  {
    KeysAppend(d.selected, album, UriOf);
    DistinctKeysAppend(d.selected, album, UriOf);
    d.(selectedUris := d.selectedUris + {album.uri}, selected := d.selected + [album])
  }

  /** Selecting and deselecting a record restores the dialog. */
  lemma ToggleTwice(d: Dialog, album: Album)
    requires Valid(d) && album.uri !in d.selectedUris && album.uri !in d.existingUris
    ensures Toggle(Toggle(d, album), album) == d
  {
    var once := Select(d, album);
    assert Toggle(d, album) == once;
    var k := FindIndex(once.selected, HasUri(album.uri));
    assert k == |d.selected| by {
      FirstWithUriIsLast(d, album);
    }
    assert once.selected[..k] + once.selected[k + 1..] == d.selected;
    assert once.selectedUris - {album.uri} == d.selectedUris;
    assert Toggle(once, album) == Deselect(once, album.uri);
  }

  /** A record appended with a new uri is the first record with that uri. */
  lemma FirstWithUriIsLast(d: Dialog, album: Album)
    requires Valid(d) && album.uri !in d.selectedUris && album.uri !in d.existingUris
    ensures FindIndex(d.selected + [album], HasUri(album.uri)) == |d.selected|
  {
    var s := d.selected + [album];
    forall i | 0 <= i < |d.selected| ensures !HasUri(album.uri)(s[i]) {
      assert s[i] == d.selected[i];
      assert UriOf(d.selected[i]) in Keys(d.selected, UriOf);
    }
    assert HasUri(album.uri)(s[|d.selected|]);
  }

  // ---------------------------------------------------------- bulk selection

  /** The records appended by a bulk selection: in candidate order, the
      first candidate for every uri that passes `ok` and is not yet selected. */
  function Fresh(uris: set<string>, cands: seq<Album>, ok: Album -> bool): seq<Album> {
    KeepFirst(Filter(cands, Eligible(uris, ok)), UriOf)
  }

  /** A candidate passing `ok` whose uri is not in `uris`. */
  function Eligible(uris: set<string>, ok: Album -> bool): Album -> bool {
    (c: Album) => ok(c) && c.uri !in uris
  }

  /** The `forEach` of `selectAll` and `selectAllChildren`: add each candidate
      that passes `ok` and whose uri is not yet in the set. */
  function AddAll(uris: set<string>, objs: seq<Album>, cands: seq<Album>, ok: Album -> bool): (set<string>, seq<Album>) {
    if |cands| == 0 then (uris, objs)
    else
      var acc := AddAll(uris, objs, cands[..|cands| - 1], ok);
      var c := cands[|cands| - 1];
      if ok(c) && c.uri !in acc.0 then (acc.0 + {c.uri}, acc.1 + [c]) else acc
  }

  /** The fold appends exactly `Fresh` and keeps the uri set in step with
      the list. */
  lemma {:induction false} AddAllIsFresh(uris: set<string>, objs: seq<Album>, cands: seq<Album>, ok: Album -> bool)
    requires uris == Keys(objs, UriOf)
    ensures var r := AddAll(uris, objs, cands, ok);
      r.0 == Keys(r.1, UriOf) && r.1 == objs + Fresh(uris, cands, ok)
  {
    if |cands| > 0 {
      var front := cands[..|cands| - 1];
      var c := cands[|cands| - 1];
      assert cands == front + [c];
      AddAllIsFresh(uris, objs, front, ok);
      AddAllIsFreshStep(uris, objs, front, c, ok);
    }
  }

  /** The inductive step of `AddAllIsFresh`. */
  lemma AddAllIsFreshStep(uris: set<string>, objs: seq<Album>, front: seq<Album>, c: Album, ok: Album -> bool)
    requires uris == Keys(objs, UriOf)
    requires var acc := AddAll(uris, objs, front, ok);
      acc.0 == Keys(acc.1, UriOf) && acc.1 == objs + Fresh(uris, front, ok)
    ensures var r := AddAll(uris, objs, front + [c], ok);
      r.0 == Keys(r.1, UriOf) && r.1 == objs + Fresh(uris, front + [c], ok)
  {
    var acc := AddAll(uris, objs, front, ok);
    var before := Fresh(uris, front, ok);
    AddAllSnoc(uris, objs, front, c, ok);
    AddAllStep(uris, objs, front, c, ok);
    KeysConcat(objs, before, UriOf);
    AppendOne(uris, objs, acc, before, c, ok(c));
  }

  /** The accumulator and `Fresh` grow together by one candidate. */
  lemma AppendOne(uris: set<string>, objs: seq<Album>, acc: (set<string>, seq<Album>), before: seq<Album>, c: Album, pass: bool)
    requires uris == Keys(objs, UriOf) && acc.0 == Keys(acc.1, UriOf) && acc.1 == objs + before
    requires Keys(acc.1, UriOf) == Keys(objs, UriOf) + Keys(before, UriOf)
    ensures var r := if pass && c.uri !in acc.0 then (acc.0 + {c.uri}, acc.1 + [c]) else acc;
      var after := if pass && c.uri !in uris + Keys(before, UriOf) then before + [c] else before;
      r.0 == Keys(r.1, UriOf) && r.1 == objs + after
  {
    if pass && c.uri !in acc.0 {
      KeysAppend(acc.1, c, UriOf);
      assert acc.1 + [c] == objs + (before + [c]);
    }
  }

  /** The fold over one more candidate. */
  lemma AddAllSnoc(uris: set<string>, objs: seq<Album>, front: seq<Album>, c: Album, ok: Album -> bool)
    ensures var acc := AddAll(uris, objs, front, ok);
      AddAll(uris, objs, front + [c], ok) ==
        if ok(c) && c.uri !in acc.0 then (acc.0 + {c.uri}, acc.1 + [c]) else acc
  {
    assert (front + [c])[..|front|] == front;
  }

  /** One more candidate extends `Fresh` exactly when the fold adds it. */
  lemma AddAllStep(uris: set<string>, objs: seq<Album>, front: seq<Album>, c: Album, ok: Album -> bool)
    ensures var before := Fresh(uris, front, ok);
      Fresh(uris, front + [c], ok) ==
        if ok(c) && c.uri !in uris + Keys(before, UriOf) then before + [c] else before
  {
    var p := Eligible(uris, ok);
    FilterAppend(front, [c], p);
    var f := Filter(front, p);
    if p(c) {
      assert Filter([c], p) == [c];
      var all := f + [c];
      assert all[..|all| - 1] == f;
    } else {
      assert Filter([c], p) == [];
      assert Filter(front + [c], p) == f;
    }
  }

  /** A bulk selection keeps the invariant and only appends fresh records,
      none already in the library when `ok` excludes those. */
  lemma AddAllValid(d: Dialog, cands: seq<Album>, ok: Album -> bool)
    requires Valid(d)
    requires forall c | c in cands && ok(c) :: c.uri !in d.existingUris
    ensures var r := AddAll(d.selectedUris, d.selected, cands, ok);
      Valid(d.(selectedUris := r.0, selected := r.1))
  {
    AddAllIsFresh(d.selectedUris, d.selected, cands, ok);
    var added := Fresh(d.selectedUris, cands, ok);
    FreshFromCandidates(d.selectedUris, cands, ok);
    assert Keys(d.selected, UriOf) !! Keys(added, UriOf) by {
      forall k | k in Keys(added, UriOf) ensures k !in d.selectedUris {
        var i :| 0 <= i < |added| && UriOf(added[i]) == k;
        assert added[i] in added;
      }
    }
    DistinctKeysConcat(d.selected, added, UriOf);
    var r := d.selected + added;
    forall i | |d.selected| <= i < |r| ensures r[i].uri !in d.existingUris {
      assert r[i] == added[i - |d.selected|];
      assert r[i] in added;
    }
  }

  /** Once every eligible candidate is selected, a bulk selection adds nothing. */
  lemma AddAllSaturated(uris: set<string>, objs: seq<Album>, cands: seq<Album>, ok: Album -> bool)
    requires uris == Keys(objs, UriOf)
    requires forall c | c in cands && ok(c) :: c.uri in uris
    ensures AddAll(uris, objs, cands, ok) == (uris, objs)
  {
    AddAllIsFresh(uris, objs, cands, ok);
    FilterKeepsNothing(cands, Eligible(uris, ok));
    assert objs + [] == objs;
  }

  lemma {:induction false} FilterKeepsNothing<T>(s: seq<T>, p: T -> bool)
    requires forall x | x in s :: !p(x)
    ensures Filter(s, p) == []
  {
    if |s| > 0 {
      FilterKeepsNothing(s[1..], p);
    }
  }

  /** Top-level results `selectAll` may pick: albums not in the library. */
  function AlbumResult(d: Dialog): Album -> bool {
    (c: Album) => c.kind == Some("album") && c.uri !in d.existingUris
  }

  /** `selectAll`: append, in result order, the album-type results not in the
      library and not yet selected. */
  function SelectAll(d: Dialog): (r: Dialog)
    requires Valid(d)
    ensures Valid(r) && SelectionOnly(d, r)
    ensures r.selected == d.selected + Fresh(d.selectedUris, d.results, AlbumResult(d))
    ensures forall i | |d.selected| <= i < |r.selected| ::
      r.selected[i] in d.results && r.selected[i].kind == Some("album")
  {
    var added := AddAll(d.selectedUris, d.selected, d.results, AlbumResult(d));
    AddAllIsFresh(d.selectedUris, d.selected, d.results, AlbumResult(d));
    AddAllValid(d, d.results, AlbumResult(d));
    var r := d.(selectedUris := added.0, selected := added.1);
    FreshFromCandidates(d.selectedUris, d.results, AlbumResult(d));
    r
  }

  /** Every freshly added record is a candidate that passes `ok`. */
  lemma FreshFromCandidates(uris: set<string>, cands: seq<Album>, ok: Album -> bool)
    ensures forall x | x in Fresh(uris, cands, ok) :: x in cands && ok(x) && x.uri !in uris
  {
    forall x | x in Fresh(uris, cands, ok) ensures x in cands && ok(x) && x.uri !in uris {
      FilterMembership(cands, Eligible(uris, ok), x);
    }
  }

  /** Selecting all twice is selecting all once. */
  lemma SelectAllIdempotent(d: Dialog)
    requires Valid(d)
    ensures SelectAll(SelectAll(d)) == SelectAll(d)
  {
    var once := SelectAll(d);
    var ok := AlbumResult(d);
    assert AlbumResult(once) == ok;
    forall c | c in d.results && ok(c) ensures c.uri in once.selectedUris {
      SelectAllCovers(d, c);
    }
    AddAllSaturated(once.selectedUris, once.selected, d.results, ok);
  }

  /** After `selectAll` every album-type result not in the library is selected. */
  lemma SelectAllCovers(d: Dialog, c: Album)
    requires Valid(d) && c in d.results && AlbumResult(d)(c)
    ensures c.uri in SelectAll(d).selectedUris
  {
    var p := Eligible(d.selectedUris, AlbumResult(d));
    var added := Fresh(d.selectedUris, d.results, AlbumResult(d));
    KeysConcat(d.selected, added, UriOf);
    AddAllIsFresh(d.selectedUris, d.selected, d.results, AlbumResult(d));
    if c.uri !in d.selectedUris {
      FilterMembership(d.results, p, c);
      var f := Filter(d.results, p);
      var i :| 0 <= i < |f| && f[i] == c;
      assert UriOf(f[i]) in Keys(f, UriOf);
    }
  }

  /** Records `selectAllChildren` may pick: those not in the library. */
  function NotInLibrary(d: Dialog): Album -> bool {
    (c: Album) => c.uri !in d.existingUris
  }

  /** `getChildren`: the cached children of a record with a non-empty id, else none. */
  function ChildrenOf(d: Dialog, parent: Album): seq<Album> {
    if parent.id.Some? && parent.id.value != "" && parent.id.value in d.children then d.children[parent.id.value]
    else []
  }

  /** `selectAllChildren`: nothing without cached children; otherwise append
      the children not in the library and not yet selected. */
  function SelectAllChildren(d: Dialog, parent: Album): (r: Dialog)
    requires Valid(d)
    ensures Valid(r) && SelectionOnly(d, r)
    ensures |ChildrenOf(d, parent)| == 0 ==> r == d
    ensures r.selected == d.selected + Fresh(d.selectedUris, ChildrenOf(d, parent), NotInLibrary(d))
  {
    var children := ChildrenOf(d, parent);
    var ok := NotInLibrary(d);
    var added := AddAll(d.selectedUris, d.selected, children, ok);
    AddAllIsFresh(d.selectedUris, d.selected, children, ok);
    AddAllValid(d, children, ok);
    if |children| == 0 then d
    else d.(selectedUris := added.0, selected := added.1)
  }

  // ---------------------------------------------------------- rooms

  /** `getAlbumRooms`: the rooms chosen for the record's uri, else the defaults. */
  function AlbumRooms(d: Dialog, album: Album): seq<string> {
    if album.uri in d.roomsFor then d.roomsFor[album.uri] else d.defaultRooms
  }

  /** `updateAlbumRooms`. */
  function SetAlbumRooms(d: Dialog, album: Album, rooms: seq<string>): (r: Dialog)
    ensures r.roomsFor.Keys == d.roomsFor.Keys + {album.uri}
    ensures r == d.(roomsFor := r.roomsFor)
  {
    d.(roomsFor := d.roomsFor[album.uri := rooms])
  }

  /** Setting a record's rooms is seen by exactly the records with its uri. */
  lemma RoomsAfterSet(d: Dialog, album: Album, rooms: seq<string>, other: Album)
    ensures AlbumRooms(SetAlbumRooms(d, album, rooms), other) ==
      if other.uri == album.uri then rooms else AlbumRooms(d, other)
  {
  }

  /** `loadRooms`: the room names arrive; a non-empty list also becomes the default. */
  function RoomsLoaded(d: Dialog, rooms: seq<string>): (r: Dialog)
    ensures r.rooms == rooms
    ensures r.defaultRooms == if |rooms| > 0 then rooms else d.defaultRooms
    ensures r == d.(rooms := r.rooms, defaultRooms := r.defaultRooms)
  {
    d.(rooms := rooms, defaultRooms := if |rooms| > 0 then rooms else d.defaultRooms)
  }

  /** `addSelected`: the selected records, in order, each with its rooms. */
  function AddSelected(d: Dialog): (r: seq<Album>)
    ensures |r| == |d.selected|
    ensures forall i | 0 <= i < |r| ::
      r[i] == d.selected[i].(deviceNames := Some(AlbumRooms(d, d.selected[i])))
  {
    Map(d.selected, (a: Album) => a.(deviceNames := Some(AlbumRooms(d, a))))
  }

  /** Loaded rooms become the rooms of every record nobody assigned rooms to. */
  lemma LoadedRoomsAreDefault(d: Dialog, rooms: seq<string>, a: Album)
    requires |rooms| > 0 && a.uri !in d.roomsFor
    ensures AlbumRooms(RoomsLoaded(d, rooms), a) == rooms
  {
  }

  /** Assigning rooms to a uri reaches the added records with that uri and no others. */
  lemma AssignedRoomsAreAdded(d: Dialog, album: Album, rooms: seq<string>, i: nat)
    requires i < |d.selected|
    ensures AddSelected(SetAlbumRooms(d, album, rooms))[i].deviceNames ==
      Some(if d.selected[i].uri == album.uri then rooms else AlbumRooms(d, d.selected[i]))
  {
    RoomsAfterSet(d, album, rooms, d.selected[i]);
  }

  // ---------------------------------------------------------- searching

  const MinQueryLength: nat := 2

  /** The query sent to the search, if the typed text is long enough. */
  function SearchFor(query: Option<string>): (r: Option<string>)
    ensures r.Some? <==> query.Some? && |query.value| >= MinQueryLength
    ensures r.Some? ==> r == query
  {
    if query.None? || |query.value| < MinQueryLength then None else query
  }

  /** The dialog once the search for `query` answered: too short a query
      gives no results without searching, a failed search gives none, and a
      search collapses the expanded row. */
  function Searched(d: Dialog, query: Option<string>, search: string -> Option<seq<Album>>): (r: Dialog)
    ensures SearchFor(query).None? ==> r == d.(results := [])
    ensures SearchFor(query).Some? ==>
      r == d.(results := search(query.value).GetOr([]), expanded := None)
  {
    match SearchFor(query)
    case None => d.(results := [])
    case Some(q) => d.(results := search(q).GetOr([]), expanded := None)
  }

  /** A search only replaces the results: the selection and its invariant are untouched. */
  lemma SearchKeepsSelection(d: Dialog, query: Option<string>, search: string -> Option<seq<Album>>)
    requires Valid(d)
    ensures var r := Searched(d, query, search);
      Valid(r) && r.selected == d.selected && r.selectedUris == d.selectedUris && r.existingUris == d.existingUris
  {
  }

  // ---------------------------------------------------------- expandable rows

  /** `toggleRow`: albums do not expand; the expanded row collapses; any other
      row expands, and asks for its children when it has an id not yet cached. */
  function ToggleRow(d: Dialog, element: Album): (r: (Dialog, Option<string>))
    ensures element.kind == Some("album") ==> r == (d, None)
    ensures element.kind != Some("album") && d.expanded == Some(element) ==> r == (d.(expanded := None), None)
    ensures element.kind != Some("album") && d.expanded != Some(element) ==>
      && r.0 == d.(expanded := Some(element))
      && (r.1.Some? <==> element.id.Some? && element.id.value != "" && element.id.value !in d.children)
      && (r.1.Some? ==> r.1 == element.id)
  {
    if element.kind == Some("album") then (d, None)
    else if d.expanded == Some(element) then (d.(expanded := None), None)
    else
      var fetch := if element.id.Some? && element.id.value != "" && element.id.value !in d.children then element.id else None;
      (d.(expanded := Some(element)), fetch)
  }

  /** `fetchChildren` once settled: an artist's or playlist's albums as
      fetched (`None` when the request failed, leaving the cache alone), no
      children for any other type, and the id no longer loading. */
  function ChildrenFetched(d: Dialog, element: Album, fetched: Option<seq<Album>>): (r: Dialog)
    requires Valid(d)
    ensures Valid(r)
    ensures element.id.None? || element.id.value == "" ==> r == d
    ensures element.id.Some? && element.id.value != "" ==>
      var id := element.id.value;
      var isParent := element.kind == Some("artist") || element.kind == Some("playlist");
      && r.loading == d.loading - {id}
      && r.children == (if !isParent then d.children[id := []] else if fetched.Some? then d.children[id := fetched.value] else d.children)
      && r == d.(loading := r.loading, children := r.children)
  {
    if element.id.None? || element.id.value == "" then d
    else
      var id := element.id.value;
      var isParent := element.kind == Some("artist") || element.kind == Some("playlist");
      var children :=
        if !isParent then d.children[id := []]
        else if fetched.Some? then d.children[id := fetched.value]
        else d.children;
      d.(children := children, loading := d.loading - {id})
  }

  /** Expanding a row and toggling it again collapses it, without a second request. */
  lemma ToggleRowTwice(d: Dialog, element: Album)
    requires element.kind != Some("album") && d.expanded != Some(element)
    ensures ToggleRow(ToggleRow(d, element).0, element) == (d.(expanded := None), None)
  {
  }

  /** Fetched children are cached under the parent's id, so the parent's row
      shows them and never asks for them again. */
  lemma FetchedChildrenAreCached(d: Dialog, element: Album, children: seq<Album>)
    requires Valid(d)
    requires element.id.Some? && element.id.value != ""
    requires element.kind == Some("artist") || element.kind == Some("playlist")
    ensures var r := ChildrenFetched(d, element, Some(children));
      && ChildrenOf(r, element) == children
      && element.id.value !in r.loading
      && ToggleRow(r, element).1.None?
  {
  }

  // ---------------------------------------------------------- grouping

  datatype Group = Group(kind: string, items: seq<Album>)

  /** `item.type || 'unknown'`. */
  function TypeOf(a: Album): string {
    if a.kind.Some? && a.kind.value != "" then a.kind.value else "unknown"
  }

  const DisplayOrder: seq<string> := ["artist", "playlist", "album"]

  function Ident(t: string): string { t }

  /** The types present, in order of first appearance (the insertion order of the map). */
  function TypesSeen(results: seq<Album>): seq<string> {
    KeepFirst(Map(results, TypeOf), Ident)
  }

  /** Whether a type was seen. */
  function SeenIn(seen: seq<string>): string -> bool {
    (t: string) => t in seen
  }

  /** Whether a type is outside the display order. */
  predicate Unlisted(t: string) {
    Rank(t) == 3
  }

  /** The group types: the known ones in display order, then the rest by first appearance. */
  function GroupTypes(results: seq<Album>): seq<string> {
    var seen := TypesSeen(results);
    Filter(DisplayOrder, SeenIn(seen)) + Filter(seen, Unlisted)
  }

  /** The results of one type, in order. */
  function OfType(t: string): Album -> bool {
    (a: Album) => TypeOf(a) == t
  }

  /** `groupedResults`. */
  function GroupedResults(results: seq<Album>): (r: seq<Group>)
    ensures |results| == 0 ==> r == []
    ensures |r| == |GroupTypes(results)| || |results| == 0
    ensures forall k | 0 <= k < |r| :: r[k] == Group(GroupTypes(results)[k], Filter(results, OfType(GroupTypes(results)[k])))
  {
    if |results| == 0 then []
    else Map(GroupTypes(results), (t: string) => Group(t, Filter(results, OfType(t))))
  }

  /** The position of a type in the display order; other types come last. */
  function Rank(t: string): int {
    if t == "artist" then 0 else if t == "playlist" then 1 else if t == "album" then 2 else 3
  }

  /** Every result lands in exactly one group, the group of its type; groups
      hold only results of their type; known types come first, in the order
      artist, playlist, album. */
  lemma GroupsPartitionResults(results: seq<Album>)
    ensures var g := GroupedResults(results);
      && (forall a | a in results :: exists k | 0 <= k < |g| :: a in g[k].items)
      && (forall a, k1, k2 | 0 <= k1 < |g| && 0 <= k2 < |g| && a in g[k1].items && a in g[k2].items :: k1 == k2)
      && (forall k, a | 0 <= k < |g| && a in g[k].items :: a in results && TypeOf(a) == g[k].kind)
      && (forall k1, k2 | 0 <= k1 < k2 < |g| :: Rank(g[k1].kind) <= Rank(g[k2].kind))
  {
    if |results| > 0 {
      var g := GroupedResults(results);
      var types := GroupTypes(results);
      GroupTypesDistinct(results);
      forall k, a | 0 <= k < |g| && a in g[k].items ensures a in results && TypeOf(a) == g[k].kind {
        FilterMembership(results, OfType(types[k]), a);
      }
      forall a | a in results ensures exists k | 0 <= k < |g| :: a in g[k].items {
        var k := GroupTypesCover(results, a);
        FilterMembership(results, OfType(types[k]), a);
      }
      forall a, k1, k2 | 0 <= k1 < |g| && 0 <= k2 < |g| && a in g[k1].items && a in g[k2].items ensures k1 == k2 {
        FilterMembership(results, OfType(types[k1]), a);
        FilterMembership(results, OfType(types[k2]), a);
      }
      GroupTypesRanked(results);
    }
  }

  /** Listed types in display order. */
  predicate KnownTypes(known: seq<string>) {
    && Increasing(known, Rank)
    && (forall m | 0 <= m < |known| :: Rank(known[m]) < 3)
  }

  /** Unlisted types, each once. */
  predicate OtherTypes(others: seq<string>) {
    && (forall m | 0 <= m < |others| :: Rank(others[m]) == 3)
    && DistinctKeys(others, Ident)
  }

  /** The two runs of the group types: the seen known types, ranked, then
      the seen other types, each once. */
  lemma GroupTypesParts(results: seq<Album>) returns (known: seq<string>, others: seq<string>)
    ensures GroupTypes(results) == known + others
    ensures KnownTypes(known) && OtherTypes(others)
    ensures forall t | t in TypesSeen(results) :: t in known || t in others
  {
    var seen := TypesSeen(results);
    known := Filter(DisplayOrder, SeenIn(seen));
    others := Filter(seen, Unlisted);
    KnownRun(seen);
    OtherRun(seen);
    forall t | t in seen ensures t in known || t in others {
      SeenSplit(seen, t);
    }
  }

  lemma KnownRun(seen: seq<string>)
    ensures KnownTypes(Filter(DisplayOrder, SeenIn(seen)))
  {
    var known := Filter(DisplayOrder, SeenIn(seen));
    DisplayOrderRanked();
    FilterKeepsOrder(DisplayOrder, SeenIn(seen), Rank);
    forall m | 0 <= m < |known| ensures Rank(known[m]) < 3 {
      FilterMembership(DisplayOrder, SeenIn(seen), known[m]);
      ListedIsKnown(known[m]);
    }
  }

  /** The listed types rank below 3. */
  lemma ListedIsKnown(t: string)
    requires t in DisplayOrder
    ensures Rank(t) < 3
  {
    DisplayOrderRanked();
    var i :| 0 <= i < |DisplayOrder| && DisplayOrder[i] == t;
    assert Rank(DisplayOrder[i]) <= Rank(DisplayOrder[2]);
  }

  lemma OtherRun(seen: seq<string>)
    requires DistinctKeys(seen, Ident)
    ensures OtherTypes(Filter(seen, Unlisted))
  {
    var others := Filter(seen, Unlisted);
    FilterDistinct(seen, Unlisted, Ident);
  }

  lemma SeenSplit(seen: seq<string>, t: string)
    requires t in seen
    ensures t in Filter(DisplayOrder, SeenIn(seen)) || t in Filter(seen, Unlisted)
  {
    if Rank(t) < 3 {
      KnownIsListed(t);
      FilterMembership(DisplayOrder, SeenIn(seen), t);
    } else {
      FilterMembership(seen, Unlisted, t);
    }
  }

  /** The types ranked below 3 are exactly the listed ones. */
  lemma KnownIsListed(t: string)
    requires Rank(t) < 3
    ensures t in DisplayOrder
  {
    if t == "artist" {
      assert DisplayOrder[0] == t;
    } else if t == "playlist" {
      assert DisplayOrder[1] == t;
    } else {
      assert DisplayOrder[2] == t;
    }
  }

  lemma GroupTypesDistinct(results: seq<Album>)
    ensures DistinctKeys(GroupTypes(results), Ident)
  {
    var known, others := GroupTypesParts(results);
    var all := known + others;
    forall i, j | 0 <= i < j < |all| ensures Ident(all[i]) != Ident(all[j]) {
      if j < |known| {
        assert all[i] == known[i] && all[j] == known[j];
      } else if i < |known| {
        assert all[i] == known[i] && all[j] == others[j - |known|];
      } else {
        assert all[i] == others[i - |known|] && all[j] == others[j - |known|];
      }
    }
  }

  lemma GroupTypesCover(results: seq<Album>, a: Album) returns (k: nat)
    requires a in results
    ensures k < |GroupTypes(results)| && GroupTypes(results)[k] == TypeOf(a)
  {
    var known, others := GroupTypesParts(results);
    assert TypeOf(a) in TypesSeen(results) by {
      TypeIsSeen(results, a);
    }
    k := IndexInConcat(known, others, TypeOf(a));
  }

  /** A position of `t` in `known + others`. */
  lemma IndexInConcat(known: seq<string>, others: seq<string>, t: string) returns (k: nat)
    requires t in known || t in others
    ensures k < |known + others| && (known + others)[k] == t
  {
    var all := known + others;
    if t in known {
      k :| 0 <= k < |known| && known[k] == t;
      assert all[k] == known[k];
    } else {
      var m :| 0 <= m < |others| && others[m] == t;
      k := |known| + m;
      assert all[k] == others[m];
    }
  }

  /** The type of every result is among the types seen. */
  lemma TypeIsSeen(results: seq<Album>, a: Album)
    requires a in results
    ensures TypeOf(a) in TypesSeen(results)
  {
    var types := Map(results, TypeOf);
    var seen := TypesSeen(results);
    var i :| 0 <= i < |results| && results[i] == a;
    assert Ident(types[i]) in Keys(types, Ident);
    var j :| 0 <= j < |seen| && Ident(seen[j]) == TypeOf(a);
  }

  lemma DisplayOrderRanked()
    ensures Increasing(DisplayOrder, Rank)
  {
    assert Rank(DisplayOrder[0]) == 0 && Rank(DisplayOrder[1]) == 1 && Rank(DisplayOrder[2]) == 2;
  }

  /** Two ranked runs, every rank of the first below every rank of the
      second, make one ranked run. */
  lemma ConcatRanked(known: seq<string>, others: seq<string>)
    requires KnownTypes(known) && OtherTypes(others)
    ensures var t := known + others; forall i, j | 0 <= i < j < |t| :: Rank(t[i]) <= Rank(t[j])
  {
    var t := known + others;
    forall i, j | 0 <= i < j < |t| ensures Rank(t[i]) <= Rank(t[j]) {
      if j < |known| {
        assert t[i] == known[i] && t[j] == known[j];
      } else if i < |known| {
        assert t[i] == known[i] && t[j] == others[j - |known|];
      } else {
        assert t[i] == others[i - |known|] && t[j] == others[j - |known|];
      }
    }
  }

  lemma GroupTypesRanked(results: seq<Album>)
    ensures var t := GroupTypes(results);
      forall i, j | 0 <= i < j < |t| :: Rank(t[i]) <= Rank(t[j])
  {
    var known, others := GroupTypesParts(results);
    ConcatRanked(known, others);
  }
}
