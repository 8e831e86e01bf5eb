/** The HTTP interceptor that tells the backend which Sonos room a request
    is for, with an X-Device-Name header carrying the selected room, except
    on the album library's write requests. */
module DeviceNameInterceptor {
  import opened Wrappers
  import opened Text
  import RoomService

  /** An outgoing request; `verb` is the HTTP method. */
  datatype Request = Request(url: string, verb: string, headers: map<string, string>, body: Option<string>)

  const HeaderName := "X-Device-Name"
  const AdminPath := "/albums"

  /** A write to the album library: a POST, PUT or DELETE whose url
      contains '/albums'. */
  predicate IsAdminRequest(req: Request) {
    Contains(req.url, AdminPath) && req.verb in ["POST", "PUT", "DELETE"]
  }

  /** The request handed on: with the header set to the room when a
      non-empty room is selected and the request is not a library write,
      else unchanged. */
  function Intercept(req: Request, room: Option<string>): (r: Request)
    ensures room.Some? && room.value != "" && !IsAdminRequest(req) ==>
      HeaderName in r.headers && r.headers[HeaderName] == room.value
    ensures room.None? || room.value == "" || IsAdminRequest(req) ==> r == req
    ensures r == req.(headers := r.headers)
    ensures r.headers.Keys <= req.headers.Keys + {HeaderName}
    ensures forall h | h in req.headers && h != HeaderName :: h in r.headers && r.headers[h] == req.headers[h]
  {
    if room.Some? && room.value != "" && !IsAdminRequest(req) then
      req.(headers := req.headers[HeaderName := room.value])
    else req
  }

  /** Intercepting twice is intercepting once. */
  lemma InterceptIdempotent(req: Request, room: Option<string>)
    ensures Intercept(Intercept(req, room), room) == Intercept(req, room)
  {
    var once := Intercept(req, room);
    if room.Some? && room.value != "" && !IsAdminRequest(req) {
      assert once.headers[HeaderName := room.value] == once.headers;
    }
  }

  /** The header is added exactly when the room service holds a room. */
  lemma HeaderFollowsService(req: Request, s: RoomService.Service)
    requires HeaderName !in req.headers
    ensures HeaderName in Intercept(req, s.selected).headers <==>
      RoomService.HasSelectedRoom(s) && !IsAdminRequest(req)
  {
  }

  /** The library's own routes: reading it carries the room, writing it
      (adding, updating, deleting an album) does not. */
  lemma LibraryRoutes(apiUrl: string, id: string, room: string, headers: map<string, string>)
    requires room != ""
    ensures var url := apiUrl + AdminPath;
      var get := Intercept(Request(url, "GET", headers, None), Some(room));
      HeaderName in get.headers && get.headers[HeaderName] == room
    ensures Intercept(Request(apiUrl + AdminPath, "POST", headers, None), Some(room)).headers == headers
    ensures Intercept(Request(apiUrl + AdminPath + "/" + id, "PUT", headers, None), Some(room)).headers == headers
    ensures Intercept(Request(apiUrl + AdminPath + "/" + id, "DELETE", headers, None), Some(room)).headers == headers
  {
    ContainsAfter(apiUrl, AdminPath, "");
    ContainsAfter(apiUrl, AdminPath, "/" + id);
    assert apiUrl + AdminPath + "" == apiUrl + AdminPath;
    assert apiUrl + AdminPath + "/" + id == apiUrl + AdminPath + ("/" + id);
  }

  /** A url built as prefix, path, suffix contains the path. */
  lemma ContainsAfter(prefix: string, path: string, suffix: string)
    ensures Contains(prefix + path + suffix, path)
  {
    var s := prefix + path + suffix;
    assert s[|prefix|..|prefix| + |path|] == path;
    assert OccursAt(s, path, |prefix|);
  }
}
