/** Reading the player state the frontend polls from GET /state: which album
    title, if any, a view should highlight. A failed poll is `None` (the
    `catchError(() => of(null))` of both views). */
module PolledState {
  import opened Wrappers
  import opened Json

  /** `v.key` on a parsed JSON value: the field of an object, `undefined`
      (`None`) for a missing field or any other kind of value. */
  function Get(v: Value, key: string): (r: Option<Value>)
    ensures r.Some? <==> v.JObj? && key in v.fields
  {
    if v.JObj? && key in v.fields then Some(v.fields[key]) else None
  }

  /** Whether an optional value is truthy (`undefined` is not). */
  predicate IsTruthy(v: Option<Value>) {
    v.Some? && Truthy(v.value)
  }

  /** The `transportState === 'PLAYING'` test. */
  predicate Playing(state: Value) {
    Get(state, "transportState") == Some(JStr("PLAYING"))
  }

  /** `state.trackMetaData.Album` when both are truthy, else nothing. */
  function AlbumTitle(state: Value): (r: Option<Value>)
    ensures r.Some? ==> Truthy(r.value)
    ensures r.Some? <==> IsTruthy(Get(state, "trackMetaData")) && IsTruthy(Get(Get(state, "trackMetaData").value, "Album"))
  {
    var meta := Get(state, "trackMetaData");
    if IsTruthy(meta) && IsTruthy(Get(meta.value, "Album")) then Get(meta.value, "Album") else None
  }

  /** The title to highlight for a state that arrived: the album of a
      playing track, otherwise none (`null`). */
  function Highlight(state: Value): (r: Option<Value>)
    ensures r.Some? <==> Playing(state) && AlbumTitle(state).Some?
    ensures r.Some? ==> r == Get(Get(state, "trackMetaData").value, "Album")
  {
    if Playing(state) then AlbumTitle(state) else None
  }

  /** `currentAlbumTitle() === album.title`: only a string highlight equal
      to the title matches. */
  predicate Shows(highlight: Option<Value>, title: string) {
    highlight == Some(JStr(title))
  }

  /** A state as the backend's GET /state sends it. */
  function StateOf(transport: string, album: Option<string>): Value {
    JObj(map[
      "transportState" := JStr(transport),
      "trackMetaData" := JObj(if album.Some? then map["Album" := JStr(album.value)] else map[])])
  }

  /** For a state of that shape, the highlight is the album exactly when the
      transport is PLAYING and the album title is non-empty. */
  lemma HighlightOfState(transport: string, album: Option<string>, title: string)
    ensures Shows(Highlight(StateOf(transport, album)), title) <==>
      transport == "PLAYING" && album == Some(title) && title != ""
  {
    var state := StateOf(transport, album);
    assert Get(state, "transportState") == Some(JStr(transport));
    var meta := Get(state, "trackMetaData");
    assert Truthy(meta.value);
    if album.Some? {
      assert Get(meta.value, "Album") == Some(JStr(album.value));
    } else {
      assert Get(meta.value, "Album") == None;
    }
  }
}
