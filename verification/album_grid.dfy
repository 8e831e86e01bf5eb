/** The album grid on the main screen: the albums as fetched, the polled
    transport state passed on to the playback controls, the highlight of the
    album playing now, and the play button of each card. */
module AlbumGrid {
  import opened Wrappers
  import opened Json
  import opened Albums
  import opened PolledState
  import AdminPanel
  import PlaybackControls

  datatype Grid = Grid(albums: seq<Album>, highlight: Option<Value>, transportState: Option<Value>)

  /** The grid before the first fetch and poll. */
  function Initial(): (g: Grid)
    ensures g.albums == [] && g.highlight.None? && g.transportState == PlaybackControls.DefaultState
  {
    Grid([], None, Some(JStr("STOPPED")))
  }

  /** `refreshAlbums`: the list as it arrives, unsorted. */
  function Refreshed(g: Grid, data: seq<Album>): (r: Grid)
    ensures r.albums == data && r == g.(albums := data)
  {
    g.(albums := data)
  }

  /** The poll handler: a failed poll or a falsy state changes nothing;
      otherwise the transport state is taken over as sent and the highlight
      follows the playing album. */
  function Polled(g: Grid, poll: Option<Value>): (r: Grid)
    ensures poll.None? || !Truthy(poll.value) ==> r == g
    ensures poll.Some? && Truthy(poll.value) ==>
      && r.albums == g.albums
      && r.transportState == Get(poll.value, "transportState")
      && (r.highlight.Some? <==> Playing(poll.value) && AlbumTitle(poll.value).Some?)
      && r.highlight == Highlight(poll.value)
  {
    if poll.Some? && Truthy(poll.value) then
      var state := poll.value;
      var title := if Playing(state) && AlbumTitle(state).Some? then AlbumTitle(state) else None;
      g.(transportState := Get(state, "transportState"), highlight := title)
    else g
  }

  /** On a state that arrived the grid highlights what the admin panel
      highlights; on a failed poll the grid keeps its highlight where the
      panel clears it. */
  lemma AgreesWithAdmin(g: Grid, p: AdminPanel.Panel, poll: Option<Value>)
    ensures poll.Some? && Truthy(poll.value) ==>
      Polled(g, poll).highlight == AdminPanel.Polled(p, poll).highlight
    ensures poll.None? ==>
      Polled(g, poll).highlight == g.highlight && AdminPanel.Polled(p, poll).highlight.None?
  {
  }

  /** The play button of a grid polled as PLAYING pauses; of a grid polled
      in any other string state it resumes. */
  lemma ControlsFollowPoll(g: Grid, transport: string, album: Option<string>)
    ensures var r := Polled(g, Some(StateOf(transport, album)));
      PlaybackControls.TogglePlay(r.transportState) ==
        if transport in {"PLAYING", "TRANSITIONING", "BUFFERING"} then PlaybackControls.Pause
        else PlaybackControls.Resume
  {
    var state := StateOf(transport, album);
    assert Get(state, "transportState") == Some(JStr(transport));
  }

  /** `playAlbum`: the uri to play, nothing for an empty uri. */
  function PlayAlbum(album: Album): (r: Option<string>)
    ensures r.None? <==> album.uri == ""
    ensures r.Some? ==> r.value == album.uri
  {
    if album.uri == "" then None else Some(album.uri)
  }

  /** `isPlaying`. */
  predicate IsPlaying(g: Grid, album: Album) {
    Shows(g.highlight, album.title)
  }

  /** After a poll of a playing state whose album is `t`, exactly the cards
      titled `t` show as playing. */
  lemma PlayingAfterPoll(g: Grid, transport: string, t: string, album: Album)
    ensures IsPlaying(Polled(g, Some(StateOf(transport, Some(t)))), album) <==>
      transport == "PLAYING" && t != "" && album.title == t
  {
    HighlightOfState(transport, Some(t), album.title);
  }
}
