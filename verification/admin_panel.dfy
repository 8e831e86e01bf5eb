/** The admin table: the album list sorted by title, a multi-row selection
    for bulk deletion, and the highlight of the album playing now. The
    selection model keeps each record once, in the order selected. */
module AdminPanel {
  import opened Wrappers
  import opened Json
  import opened Seqs
  import opened Sorting
  import opened Albums
  import opened PolledState

  datatype Panel = Panel(albums: seq<Album>, highlight: Option<Value>, selection: seq<Album>)

  function Self(a: Album): Album { a }

  /** The selection holds each record at most once. */
  predicate Valid(p: Panel) {
    DistinctKeys(p.selection, Self)
  }

  /** The panel before the first fetch. */
  function Initial(): (p: Panel)
    ensures Valid(p) && p.albums == [] && p.selection == [] && p.highlight.None?
  {
    Panel([], None, [])
  }

  /** `refreshAlbums` once the list arrives: sorted by title (stable), the
      selection cleared, the highlight kept. */
  function Refreshed(p: Panel, data: seq<Album>, collate: (string, string) -> int): (r: Panel)
    ensures Valid(r) && r.selection == [] && r.highlight == p.highlight
    ensures multiset(r.albums) == multiset(data)
  {
    Panel(SortBy(data, ByTitle(collate)), p.highlight, [])
  }

  /** Under a consistent collation the refreshed list is in title order. */
  lemma RefreshedSorted(p: Panel, data: seq<Album>, collate: (string, string) -> int)
    requires Consistent(ByTitle(collate))
    ensures Sorted(Refreshed(p, data, collate).albums, ByTitle(collate))
  {
    SortBySorted(data, ByTitle(collate));
  }

  // ---------------------------------------------------------- polling

  /** The poll handler: a failed poll or a falsy state clears the
      highlight; otherwise the highlight follows the playing album. */
  function Polled(p: Panel, poll: Option<Value>): (r: Panel)
    ensures r == p.(highlight := r.highlight)
    ensures poll.None? || !Truthy(poll.value) ==> r.highlight.None?
    ensures poll.Some? && Truthy(poll.value) ==>
      (r.highlight.Some? <==> Playing(poll.value) && AlbumTitle(poll.value).Some?)
    ensures r.highlight.Some? ==> Truthy(r.highlight.value)
    ensures poll.Some? && Truthy(poll.value) ==> r.highlight == Highlight(poll.value)
  {
    if poll.Some? && Truthy(poll.value) && Playing(poll.value) then
      var album := AlbumTitle(poll.value);
      if album.Some? then p.(highlight := album) else p.(highlight := None)
    else p.(highlight := None)
  }

  /** `isPlaying`. */
  predicate IsPlaying(p: Panel, album: Album) {
    Shows(p.highlight, album.title)
  }

  /** After a poll of a playing state whose album is `t`, exactly the
      records titled `t` show as playing; after any other poll, none. */
  lemma PlayingAfterPoll(p: Panel, transport: string, t: string, album: Album)
    ensures IsPlaying(Polled(p, Some(StateOf(transport, Some(t)))), album) <==>
      transport == "PLAYING" && t != "" && album.title == t
  {
    HighlightOfState(transport, Some(t), album.title);
  }

  lemma NothingPlayingAfterFailedPoll(p: Panel, album: Album)
    ensures !IsPlaying(Polled(p, None), album)
  {
  }

  /** `trackByAlbumId`: the id when it is a non-empty string, else the uri. */
  function TrackBy(album: Album): (k: string)
    ensures album.id.Some? && album.id.value != "" ==> k == album.id.value
    ensures album.id.None? || album.id.value == "" ==> k == album.uri
  {
    if album.id.Some? && album.id.value != "" then album.id.value else album.uri
  }

  /** Records that all carry non-empty ids, distinct among themselves, get
      distinct tracking keys. */
  lemma TrackByDistinct(albums: seq<Album>)
    requires forall i | 0 <= i < |albums| :: albums[i].id.Some? && albums[i].id.value != ""
    requires forall i, j | 0 <= i < j < |albums| :: albums[i].id != albums[j].id
    ensures DistinctKeys(albums, TrackBy)
  {
  }

  // ---------------------------------------------------------- selection

  /** `isAllSelected`: a comparison of counts only. */
  predicate AllSelected(p: Panel) {
    |p.selection| == |p.albums|
  }

  /** Counting is all the check does: a valid panel can show as all
      selected while one of its rows is not selected. */
  lemma AllSelectedCountsOnly(a: Album, b: Album)
    requires a != b
    ensures var p := Panel([a], None, [b]);
      Valid(p) && AllSelected(p) && a in p.albums && a !in p.selection
  {
  }

  /** Not yet selected. */
  function NotIn(sel: seq<Album>): Album -> bool {
    (a: Album) => a !in sel
  }

  /** `selection.select(...albums)`: the records not yet selected are
      appended, each once, in list order. */
  function SelectRows(sel: seq<Album>, albums: seq<Album>): seq<Album> {
    sel + KeepFirst(Filter(albums, NotIn(sel)), Self)
  }

  /** Selecting rows keeps each record once and selects exactly the old
      selection together with the rows. */
  lemma SelectRowsSelects(sel: seq<Album>, albums: seq<Album>)
    requires DistinctKeys(sel, Self)
    ensures DistinctKeys(SelectRows(sel, albums), Self)
    ensures Keys(SelectRows(sel, albums), Self) == Keys(sel, Self) + Keys(albums, Self)
  {
    var f := Filter(albums, NotIn(sel));
    var added := KeepFirst(f, Self);
    var r := sel + added;
    KeysConcat(sel, added, Self);
    forall i, j | 0 <= i < j < |r| ensures Self(r[i]) != Self(r[j]) {
      if j >= |sel| {
        assert r[j] == added[j - |sel|];
        FilterMembership(albums, NotIn(sel), r[j]);
        if i >= |sel| {
          assert r[i] == added[i - |sel|];
        }
      }
    }
    forall a | a in Keys(albums, Self) ensures a in Keys(r, Self) {
      var i :| 0 <= i < |albums| && Self(albums[i]) == a;
      if a !in sel {
        FilterMembership(albums, NotIn(sel), a);
        var j :| 0 <= j < |f| && f[j] == a;
        assert Self(f[j]) in Keys(f, Self);
      } else {
        var j :| 0 <= j < |sel| && sel[j] == a;
        assert Self(sel[j]) in Keys(sel, Self);
      }
    }
    forall a | a in Keys(added, Self) ensures a in Keys(albums, Self) {
      var j :| 0 <= j < |added| && Self(added[j]) == a;
      FilterMembership(albums, NotIn(sel), added[j]);
      var i :| 0 <= i < |albums| && albums[i] == added[j];
      assert Self(albums[i]) in Keys(albums, Self);
    }
  }

  /** `toggleAllRows`: clear when the counts agree, else select every row. */
  function ToggleAllRows(p: Panel): (r: Panel)
    requires Valid(p)
    ensures Valid(r) && r == p.(selection := r.selection)
    ensures AllSelected(p) ==> r.selection == []
    ensures !AllSelected(p) ==> forall a | a in p.albums :: a in r.selection
    ensures !AllSelected(p) ==> forall a | a in p.selection :: a in r.selection
    ensures !AllSelected(p) ==> p.selection <= r.selection
    ensures !AllSelected(p) ==> Keys(r.selection, Self) == Keys(p.selection, Self) + Keys(p.albums, Self)
  {
    if AllSelected(p) then p.(selection := [])
    else
      SelectRowsSelects(p.selection, p.albums);
      var r := p.(selection := SelectRows(p.selection, p.albums));
      forall a | a in p.albums ensures a in r.selection {
        var i :| 0 <= i < |p.albums| && p.albums[i] == a;
        assert Self(p.albums[i]) in Keys(p.albums, Self);
      }
      forall a | a in p.selection ensures a in r.selection {
        var i :| 0 <= i < |p.selection| && p.selection[i] == a;
        assert Self(p.selection[i]) in Keys(p.selection, Self);
      }
      r
  }

  /** With distinct rows and a selection drawn from them, toggling when not
      all are selected leaves all selected, and toggling again clears. */
  lemma ToggleAllRowsTwice(p: Panel)
    requires Valid(p) && DistinctKeys(p.albums, Self)
    requires forall a | a in p.selection :: a in p.albums
    requires !AllSelected(p)
    ensures AllSelected(ToggleAllRows(p))
    ensures ToggleAllRows(ToggleAllRows(p)).selection == []
  {
    var r := ToggleAllRows(p);
    SelectRowsSelects(p.selection, p.albums);
    assert Keys(p.selection, Self) <= Keys(p.albums, Self) by {
      forall a | a in Keys(p.selection, Self) ensures a in Keys(p.albums, Self) {
        var i :| 0 <= i < |p.selection| && Self(p.selection[i]) == a;
        assert p.selection[i] in p.albums;
        var j :| 0 <= j < |p.albums| && p.albums[j] == a;
        assert Self(p.albums[j]) in Keys(p.albums, Self);
      }
    }
    assert Keys(r.selection, Self) == Keys(p.albums, Self);
    DistinctKeysByCount(r.selection, Self);
    DistinctKeysByCount(p.albums, Self);
  }

  // ---------------------------------------------------------- deletion

  /** The ids of the selected records, `undefined` (`None`) included. */
  function SelectedIds(sel: seq<Album>): set<Option<string>> {
    set i | 0 <= i < |sel| :: sel[i].id
  }

  /** Kept by the optimistic update: an id not among the selected ids. */
  function Kept(ids: set<Option<string>>): Album -> bool {
    (a: Album) => a.id !in ids
  }

  /** The delete requests: the selected records with a non-empty id, in
      selection order. */
  function Deletions(sel: seq<Album>): (r: seq<string>)
    ensures |r| <= |sel|
    ensures forall i | 0 <= i < |r| :: r[i] != "" && Some(r[i]) in SelectedIds(sel)
    ensures forall i | 0 <= i < |sel| && sel[i].id.Some? && sel[i].id.value != "" :: sel[i].id.value in r
  {
    if |sel| == 0 then []
    else
      var rest := Deletions(sel[1..]);
      assert forall i | 0 <= i < |rest| :: Some(rest[i]) in SelectedIds(sel) by {
        forall i | 0 <= i < |rest| ensures Some(rest[i]) in SelectedIds(sel) {
          var j :| 0 <= j < |sel[1..]| && sel[1..][j].id == Some(rest[i]);
          assert sel[j + 1].id == Some(rest[i]);
        }
      }
      assert forall i | 1 <= i < |sel| :: sel[i] == sel[1..][i - 1];
      if sel[0].id.Some? && sel[0].id.value != "" then [sel[0].id.value] + rest else rest
  }

  /** One more selected record adds its own request, after the others,
      exactly when it has a non-empty id. */
  lemma {:induction false} DeletionsSnoc(sel: seq<Album>, a: Album)
    ensures Deletions(sel + [a]) ==
      Deletions(sel) + (if a.id.Some? && a.id.value != "" then [a.id.value] else [])
  {
    if |sel| == 0 {
      assert (sel + [a])[1..] == [];
    } else {
      assert (sel + [a])[1..] == sel[1..] + [a];
      DeletionsSnoc(sel[1..], a);
    }
  }

  /** `deleteSelected` up to the final refresh: nothing happens with an
      empty selection or without confirmation; otherwise the list drops
      every record whose id is a selected id, the selection is cleared, and
      the selected records with ids are deleted. */
  function DeleteSelected(p: Panel, confirmed: bool): (r: (Panel, seq<string>))
    ensures |p.selection| == 0 || !confirmed ==> r == (p, [])
    ensures |p.selection| > 0 && confirmed ==>
      && r.0 == p.(albums := r.0.albums, selection := [])
      && (forall a :: a in r.0.albums <==> a in p.albums && a.id !in SelectedIds(p.selection))
      && multiset(r.0.albums) <= multiset(p.albums)
      && r.1 == Deletions(p.selection)
    ensures |p.selection| > 0 && confirmed ==> r.0.albums == Filter(p.albums, Kept(SelectedIds(p.selection)))
  {
    if |p.selection| == 0 || !confirmed then (p, [])
    else
      var ids := SelectedIds(p.selection);
      var kept := Filter(p.albums, Kept(ids));
      forall a ensures a in kept <==> a in p.albums && a.id !in ids {
        FilterMembership(p.albums, Kept(ids), a);
      }
      (p.(albums := kept, selection := []), Deletions(p.selection))
  }

  /** After a confirmed deletion no selected record is left, nor any other
      record sharing an id with one. */
  lemma DeletedAreGone(p: Panel, a: Album)
    requires |p.selection| > 0 && a in p.selection
    ensures forall b | b in DeleteSelected(p, true).0.albums :: b.id != a.id
  {
    var i :| 0 <= i < |p.selection| && p.selection[i] == a;
    assert a.id in SelectedIds(p.selection);
  }
}
