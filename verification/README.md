# kids-remote, modelled in Dafny

kids-remote is a child-friendly remote control for Sonos players. It has two parts:

- **Backend (Express):**
  - keeps a library of favourite Spotify albums, artists and playlists in a JSON file;
  - searches the Spotify Web API;
  - drives the players through their UPnP services: play, pause, volume, text-to-speech notifications;
  - finds players on the local network by SSDP;
  - validates request bodies against schemas and turns errors into JSON responses.
- **Frontend (Angular):**
  - shows the library as a grid with playback controls;
  - offers an admin table for bulk deletion;
  - offers a multi-select search dialog for adding favourites;
  - remembers the selected room and sends it with every request.

This project models the logic of those parts as pure Dafny functions and a few methods, and proves their contracts:

- **Library store and routes:**
  - records are read sorted by title;
  - uris stay unique;
  - the 400/404/409 answers.
- **Sonos routes:** the device calls issued, in order, and the answer or error each request produces.
- **Spotify routes:**
  - the priority ordering of titles, the paging loop, and per-album deduplication;
  - the regular expression `/^\S+\s+\d/` is proved equal to a scan of maximal runs.
- **Player discovery:**
  - the `SERVER` header regular expression, proved to pick a unique leftmost-greedy match;
  - per-interface collection and the merge by host.
- **Track metadata:** scraping with lazy tag matching, and XML entity unescaping.
- **Validation:**
  - the request schemas;
  - the strip-unknown-keys parse, proved idempotent;
  - the validation middleware and the error middleware.
- **Frontend state logic:**
  - room colour and initials, with JavaScript's 32-bit shifts and truncating `%` written out;
  - the multi-select dialog's selection invariant, bulk selection, grouping and expandable rows;
  - the admin panel's selection and optimistic deletion;
  - the poll handling of grid and panel;
  - the transport buttons, the room service and the device-name interceptor.

I/O is a parameter throughout:

- the JSON file is `Option<seq<Album>>` (`None` when it is missing);
- device lookup and device-call failures are functions;
- the Spotify API is a function from query or page offset to answer;
- the clock is a number;
- `localeCompare` is a collation function, and orderings are proved for any consistent collation.

Strings are sequences of Unicode scalar values. JavaScript counts UTF-16 code units, so lengths and indices agree with it for text within the Basic Multilingual Plane, which is the text modelled.

The model follows the code where the code and its documentation differ:

- `DELETE /albums/:id` answers 204 when the file is missing;
- `POST /albums` does not copy `artist` or `deviceNames`;
- `getRoomSymbol` upper-cases the first two characters of the *untrimmed* name for a one-word name;
- the admin panel's `isAllSelected` compares counts only.

## Model

| member | source | states |
|---|---|---|
| AlbumStorage.Read | backend/src/services/albumStorage.ts:24-36 | a missing file reads as []; the records read are a permutation of those stored |
| AlbumStorage.ReadIsOrderedByTitle | backend/src/services/albumStorage.ts:28 | under any consistent collation the records read are sorted by title |
| AlbumStorage.FindById | backend/src/services/albumStorage.ts:52-55 | none exactly when no stored record has the id; otherwise the first record, in title order, with that id |
| AlbumStorage.FindByUri | backend/src/services/albumStorage.ts:60-63 | none exactly when no stored record has the uri; otherwise the first record, in title order, with that uri |
| AlbumStorage.ReadSatisfies | backend/src/services/albumStorage.ts:24-36 | reading only reorders: some record read satisfies a property exactly when some stored one does |
| AlbumStorage.SameMembers | backend/src/services/albumStorage.ts:24-36 | a record is read exactly when it is stored |
| AlbumStorage.Add | backend/src/services/albumStorage.ts:68-85 | fails with "already exists" exactly when the uri is stored; otherwise appends the record, which gets the timestamp id unless it carries an id, and the file grows by one |
| AlbumStorage.AddKeepsUrisDistinct | backend/src/services/albumStorage.ts:68-85 | a library with distinct uris keeps them distinct after any add |
| AlbumStorage.Update | backend/src/services/albumStorage.ts:90-101 | fails with "not found" exactly when no record has the id; otherwise replaces the first record with that id by the merge, keeping the id and the length |
| AlbumStorage.Delete | backend/src/services/albumStorage.ts:106-117 | false and nothing written exactly when no record has the id; otherwise the records without that id, in order |
| AlbumStorage.DeleteRemovesExactly | backend/src/services/albumStorage.ts:106-117 | after a delete, a record is stored exactly when it was stored before and has a different id |
| AlbumRoutes.Get | backend/src/routes/albums.ts:8-21 | answers the records as read (sorted), [] for a missing file, and writes nothing |
| AlbumRoutes.Post | backend/src/routes/albums.ts:23-57 | 400 without a title or uri; 409 with the existing record for a stored uri, writing nothing; otherwise appends the new record and answers it |
| AlbumRoutes.PostStoresFiveFields | backend/src/routes/albums.ts:43-49 | the stored record has the body's title, uri and type, the cover url or '', the client id if given or else the timestamp, and no artist or rooms |
| AlbumRoutes.NewRecord | backend/src/routes/albums.ts:43-49 | the new record always has a non-empty id: the client's when given, else digits reading back as the timestamp; title and uri from the body, no artist or rooms |
| AlbumRoutes.PostKeepsUrisDistinct | backend/src/routes/albums.ts:23-57 | POST keeps the library's uris distinct |
| AlbumRoutes.PostConflictMatchesStorage | backend/src/routes/albums.ts:37-41 | POST answers 409 exactly when the storage service's add would refuse the same uri |
| AlbumRoutes.Put | backend/src/routes/albums.ts:59-82 | 404 for a missing file or an unknown id; otherwise the first record with the id is replaced by the merge, which is answered |
| Albums.MergeWithId | backend/src/routes/albums.ts:70 | the fields present in the update replace the record's and the id is forced |
| Albums.MergeEmptyPatch | backend/src/services/albumStorage.ts:98 | an update with no fields changes nothing but the id |
| Albums.MergeTwice | backend/src/services/albumStorage.ts:98 | applying the same update twice is applying it once |
| Albums.MergeFullPatch | backend/src/routes/albums.ts:70 | an update carrying every field leaves nothing of the old record but forces the id |
| AlbumRoutes.Delete | backend/src/routes/albums.ts:84-106 | 204 and nothing written for a missing file; 404 for an unknown id; otherwise every record with the id is removed and 204 answered |
| AlbumRoutes.DeleteMatchesStorage | backend/src/routes/albums.ts:84-106 | when the file exists, the route answers 404 exactly when the storage service's delete returns false |
| Validation.ValidationMessage | backend/src/middleware/validation.ts:15-16 | the message starts with "Validation error: " |
| Validation.Validate | backend/src/middleware/validation.ts:8-41 | a parse replaces the input and continues; a schema error keeps the input and fails with a 400 listing the issues; any other error is forwarded as is |
| Validation.SchemaErrorAnswers400 | backend/src/middleware/validation.ts:14-16 | a schema failure reaches the client as a 400 carrying the issue message |
| Validation.MessageAppend | backend/src/middleware/validation.ts:15-16 | each further issue adds ", " and its path-and-message text |
| Validation.SingleIssue | backend/src/middleware/validation.ts:15-16 | one issue at a one-key path reads "Validation error: key: message" |
| ErrorHandler.MakeAppError | backend/src/middleware/errorHandler.ts:6-15 | the error carries the given status and message, and is operational unless told otherwise |
| ErrorHandler.HandleError | backend/src/middleware/errorHandler.ts:20-47 | an AppError answers its own status and message, anything else 500 with a fixed message; the body has exactly the keys status and message |
| ErrorHandler.OtherErrorsAreOpaque | backend/src/middleware/errorHandler.ts:42-46 | the message of an unexpected error never reaches the response |
| ErrorHandler.AppErrorRoundTrip | backend/src/middleware/errorHandler.ts:6-32 | a new AppError comes back with exactly the status and message it was made with |
| ErrorHandler.AsyncHandler | backend/src/middleware/errorHandler.ts:52-56 | only a rejected promise is passed to next; a synchronous throw escapes the wrapper |
| Schemas.FailingKeys | backend/src/validation/schemas.ts:6-46 | lists exactly the declared keys whose check fails |
| Schemas.Strip | backend/src/validation/schemas.ts:6-46 | keeps only declared keys, and every declared field unchanged |
| Schemas.Parse | backend/src/validation/schemas.ts:6-46 | succeeds exactly on valid input, with the input stripped to its declared keys; a failure on an object names exactly the failing keys, at least one |
| Schemas.ParseIdempotent | backend/src/validation/schemas.ts:6-46 | parsing the result of a successful parse gives the same result |
| Schemas.StripTwice | backend/src/validation/schemas.ts:6-13 | stripping is idempotent |
| Schemas.UpdateIsPartialAlbum | backend/src/validation/schemas.ts:18 | a valid album is exactly a valid update that has a title and a uri |
| Schemas.EmptyUpdateIsValid | backend/src/validation/schemas.ts:18 | the empty object is a valid update |
| Schemas.AlbumUriIsPlayable | backend/src/validation/schemas.ts:6-13 | a valid album is also a valid play request |
| Schemas.VolumeBounds | backend/src/validation/schemas.ts:23-25 | volumes 0 and 100 are accepted; -1, 101 and 50.5 are not |
| Metadata.ScanToClose | backend/src/services/metadata.ts:11-18 | the lazy capture stops at the first closing tag; it gives up only when every later closing tag is preceded by a line terminator |
| Metadata.MatchAt | backend/src/services/metadata.ts:11-18 | the attempt at an index finds a capture exactly when the regular expression matches there |
| Metadata.FirstMatchFrom | backend/src/services/metadata.ts:18 | the capture at the leftmost matching index, or none when no index matches |
| Metadata.Unescape | backend/src/services/metadata.ts:21-26 | never lengthens the text, and leaves text without '&' unchanged |
| Metadata.UnescapeTwice | backend/src/services/metadata.ts:22-23 | because '&amp;' is replaced first, '&amp;lt;' becomes '<' |
| Metadata.Record | backend/src/services/metadata.ts:10-30 | each field appears under its key exactly when it was found, and the object is empty exactly when nothing was found |
| Metadata.ParseMetadata | backend/src/services/metadata.ts:4-31 | null exactly for empty input; an object holding exactly the fields found; the raw input exactly when none was found |
| Metadata.FieldIsFirstCapture | backend/src/services/metadata.ts:17-27 | a field is recorded exactly when the leftmost match captures non-empty text, and the value is that text unescaped |
| Metadata.MatchIsUnique | backend/src/services/metadata.ts:18 | at a given index the expression captures at most one text |
| Network.QualifyingAliases | backend/src/utils/network.ts:5-14 | every alias kept is non-internal IPv4 |
| Network.QualifyingPrefix | backend/src/utils/network.ts:5-14 | the aliases of earlier interfaces come first |
| Network.QualifyingMembership | backend/src/utils/network.ts:5-14 | an alias is kept exactly when it qualifies and some interface lists it |
| Network.FirstQualifying | backend/src/utils/network.ts:8-12 | the scan of one list finds its first qualifying alias, or none when no alias qualifies |
| Network.GetLocalIp | backend/src/utils/network.ts:3-16 | the first qualifying address in interface order, or "localhost" when there is none |
| Discovery.SearchCapture | backend/src/discovery.ts:32 | the greedy capture is the longest one up to the bound, and none exists when it fails |
| Discovery.SearchGap | backend/src/discovery.ts:32 | the greedy gap is the longest after which the rest matches, and none exists when it fails |
| Discovery.SearchStart | backend/src/discovery.ts:32 | finds the leftmost, longest-gap, longest-capture match, or proves there is none |
| Discovery.ServerModel | backend/src/discovery.ts:32-33 | "Unknown" exactly when the expression does not match, else the capture of the preferred match |
| Discovery.PreferredIsUnique | backend/src/discovery.ts:32 | the preferred match is unique, so the model is a function of the reply |
| Discovery.DiscoverOnInterface | backend/src/discovery.ts:17-64 | a socket error gives no devices; otherwise, per host, the first Sonos reply as a device |
| Discovery.CollectIsKeepFirst | backend/src/discovery.ts:29-39 | folding the message handler over the replies keeps the first Sonos reply per host |
| Discovery.InterfaceDevices | backend/src/discovery.ts:29-39 | hosts are distinct, exactly the hosts of the Sonos replies, each with its first reply's model |
| Discovery.PerInterface | backend/src/discovery.ts:74-83 | one discovery per qualifying alias, in order, each on that alias's address |
| Discovery.DedupByHost | backend/src/discovery.ts:90-101 | the merge loop keeps the first device per host |
| Discovery.FindSonosDevices | backend/src/discovery.ts:70-102 | no qualifying interface gives []; otherwise the replies of every qualifying interface in interface order, keeping the first device per host: distinct hosts, exactly those heard anywhere |
| SonosRoutes.Normalize | backend/src/routes/sonos.ts:14-20 | the body always names a device: the given non-empty name, else the default |
| SonosRoutes.NormalizeIdempotent | backend/src/routes/sonos.ts:14-20 | normalizing twice is normalizing once |
| SonosRoutes.NameOfNormalized | backend/src/routes/sonos.ts:14-20 | a handler names the same device before and after the body is normalized, so an empty name means the default |
| SonosRoutes.RunAll | backend/src/routes/sonos.ts:66-78 | awaited calls run in order up to and including the first that rejects, whose message becomes the error; with no rejection all run |
| SonosRoutes.State | backend/src/routes/sonos.ts:32-52 | an unknown device reports STOPPED; a device without AVTransport answers 503; otherwise the transport and position calls in order: the first that rejects ends the route with its message, and the route succeeds exactly when neither rejects, answering state, uri and parsed metadata |
| SonosRoutes.PlayRoute | backend/src/routes/sonos.ts:54-81 | 400 without uri before any lookup; 404 for an unknown device; a Spotify uri first clears the queue, whose failure is ignored; the play calls are then awaited in order up to the first that rejects, whose message is the error; success exactly when no play call fails, answering "Playing <uri> on <name>" |
| SonosRoutes.PlaySequence | backend/src/routes/sonos.ts:66-78 | without failures a Spotify uri issues clear, queue, switch, play, and any other uri issues set-uri and play |
| SonosRoutes.SimpleAction | backend/src/routes/sonos.ts:83-108 | 404 for an unknown device, otherwise exactly one call; it succeeds exactly when that call does, answering the action's confirmation, and otherwise fails with the call's message |
| SonosRoutes.ResumeIssuesPlay | backend/src/routes/sonos.ts:105-108 | /resume plays, and the five actions issue five different commands |
| SonosRoutes.VolumeRoute | backend/src/routes/sonos.ts:110-138 | 400 only for an absent value, 404 for an unknown device, else exactly one call sending the value itself, through rendering control exactly when the device has it and else through the device's own call; it succeeds exactly when that call does, answering the value, and otherwise fails with the call's message |
| SonosRoutes.ZeroVolumeAccepted | backend/src/routes/sonos.ts:112 | a volume of 0 is accepted: 0 is sent in the one call, and the route succeeds exactly when that call does |
| SonosRoutes.SelectVoice | backend/src/routes/sonos.ts:152 | the exact-locale voice, else a German one, else the first; none only without voices |
| SonosRoutes.SelectedVoiceIsFirst | backend/src/routes/sonos.ts:152 | the chosen voice is the first of its kind, and a fallback is chosen only when no voice has the locale |
| SonosRoutes.Targets | backend/src/routes/sonos.ts:146 | an array of device names is used as is, otherwise the one device name or the default |
| SonosRoutes.Notify | backend/src/routes/sonos.ts:176-191 | one notification per target naming a known device: every such target's device gets one, and every notification goes to such a device |
| SonosRoutes.NotificationsCount | backend/src/routes/sonos.ts:176-191 | the forEach sends one notification per target naming a known device, each playing the speech url |
| SonosRoutes.NotificationsCover | backend/src/routes/sonos.ts:176-191 | every target naming a known device gets a notification |
| SonosRoutes.NotificationsSound | backend/src/routes/sonos.ts:176-191 | every notification goes to the device of a naming target |
| SonosRoutes.Tts | backend/src/routes/sonos.ts:140-204 | 400 without text; a voice-listing failure, no voice at all, or a synthesis failure (whatever the voice) answers 500 with "TTS failed: " and the cause; success notifies the targets and reports them with the voice |
| SonosRoutes.TtsLang | backend/src/routes/sonos.ts:143 | the requested language if given, else a non-empty default |
| SpotifyRoutes.GetPriority | backend/src/routes/spotify.ts:164-174 | 1 exactly for a leading digit; 2 exactly for word, whitespace, digit; 3 otherwise |
| SpotifyRoutes.WordSpaceDigitIsRuns | backend/src/routes/spotify.ts:171 | the regular expression matches exactly when the maximal leading word and whitespace runs are followed by a digit |
| SpotifyRoutes.CompareTitles | backend/src/routes/spotify.ts:163-185 | a lower priority class sorts first; within a class the collation decides |
| SpotifyRoutes.CompareTitlesConsistent | backend/src/routes/spotify.ts:163-185 | the title comparator is a consistent order whenever the collation is |
| SpotifyRoutes.Hits | backend/src/routes/spotify.ts:26-48 | only items with a non-empty name are kept |
| SpotifyRoutes.Search | backend/src/routes/spotify.ts:16-73 | 400 without a query, before any API call; an API error answers 500; otherwise the sorted records |
| SpotifyRoutes.SearchResults | backend/src/routes/spotify.ts:50-66 | the results are a permutation of the combined album, playlist and artist records |
| SpotifyRoutes.SearchResultsOrdered | backend/src/routes/spotify.ts:52-66 | artists first, then playlists, then albums, each group in title order |
| SpotifyRoutes.SearchResultsUsable | backend/src/routes/spotify.ts:26-48 | every result has a non-empty title and a known type |
| SpotifyRoutes.FetchAllPages | backend/src/routes/spotify.ts:83-96 | pages of 50 until a short page or eleven requests: every page before the last is full and the last is short unless it is the eleventh |
| SpotifyRoutes.StopsAfterIsUnique | backend/src/routes/spotify.ts:83-96 | the answers of the API decide how many pages the loop requests |
| SpotifyRoutes.ArtistAlbums | backend/src/routes/spotify.ts:75-112 | the pages requested follow the stopping rule; the answer is a permutation of exactly those pages' items as album records, typed album and without id, sorted by title under a consistent collation |
| SpotifyRoutes.DistinctAlbums | backend/src/routes/spotify.ts:137-151 | one album per id, exactly the ids of the tracks' albums, each the first occurrence |
| SpotifyRoutes.PlaylistAlbums | backend/src/routes/spotify.ts:114-160 | the pages requested follow the stopping rule; the answer is a permutation of the distinct albums of exactly those pages as records, sorted by title under a consistent collation |
| RoomUtils.ToInt32 | frontend/src/app/utils/room-utils.ts:8 | the result is a 32-bit integer congruent to the input modulo 2^32 |
| RoomUtils.ToInt32OnInt32 | frontend/src/app/utils/room-utils.ts:8 | a 32-bit integer is left unchanged |
| RoomUtils.ShiftLeft5 | frontend/src/app/utils/room-utils.ts:8 | the shift yields a 32-bit integer |
| RoomUtils.HashLoop | frontend/src/app/utils/room-utils.ts:6-9 | the loop computes the hash recurrence over the name's characters |
| RoomUtils.HashBound | frontend/src/app/utils/room-utils.ts:6-9 | the hash of an n-character name lies within n times 2^32 in magnitude |
| RoomUtils.JsRem | frontend/src/app/utils/room-utils.ts:12 | the remainder takes the dividend's sign, with magnitude the remainder of the magnitudes |
| RoomUtils.ShiftRight8 | frontend/src/app/utils/room-utils.ts:14 | the arithmetic shift stays within 24 signed bits |
| RoomUtils.RoomColor | frontend/src/app/utils/room-utils.ts:4-17 | an hsl colour with hue below 360, saturation 65-84 and lightness 45-59 |
| RoomUtils.HueOfHash | frontend/src/app/utils/room-utils.ts:12 | the hue is the hash's magnitude modulo 360 |
| RoomUtils.SplitWordsNonEmpty | frontend/src/app/utils/room-utils.ts:23 | trimmed text splits into non-empty words |
| RoomUtils.RoomSymbol | frontend/src/app/utils/room-utils.ts:22-32 | one word: the first two characters of the untrimmed name, upper-cased; more words: the upper-cased initials of the first two; upper-casing covers Latin-1 letters |
| RoomUtils.DefaultRoomSymbol | frontend/src/app/utils/room-utils.ts:22-32 | the default room Küche gets the symbol KÜ |
| RoomUtils.EmptySymbol | frontend/src/app/utils/room-utils.ts:22-27 | the empty name has the empty symbol |
| RoomUtils.SplitTwoWords | frontend/src/app/utils/room-utils.ts:23 | two words joined by a blank split into those words |
| RoomUtils.LeadingBlankKept | frontend/src/app/utils/room-utils.ts:25-27 | a one-word name with a leading blank keeps the blank in its symbol |
| RoomUtils.TwoWordSymbol | frontend/src/app/utils/room-utils.ts:30-31 | two words give their two upper-cased initials |
| MultiSelectDialog.Open | frontend/src/app/components/multi-select-search-dialog/multi-select-search-dialog.ts:58-60 | the dialog opens with an empty, valid selection and the library's uris |
| MultiSelectDialog.Toggle | frontend/src/app/components/multi-select-search-dialog/multi-select-search-dialog.ts:208-226 | keeps the selection invariant; ignores records already added; flips the record's uri and no other: a selected uri loses its one record from the list, order kept, and any other record is appended |
| MultiSelectDialog.Deselect | frontend/src/app/components/multi-select-search-dialog/multi-select-search-dialog.ts:213-217 | removes exactly the uri and its one record from the list, keeping the others in order, and keeps the invariant |
| MultiSelectDialog.Select | frontend/src/app/components/multi-select-search-dialog/multi-select-search-dialog.ts:218-223 | adds exactly the uri, appends the record, keeps the invariant |
| MultiSelectDialog.ToggleTwice | frontend/src/app/components/multi-select-search-dialog/multi-select-search-dialog.ts:208-226 | selecting and deselecting a record restores the dialog |
| MultiSelectDialog.AddAllIsFresh | frontend/src/app/components/multi-select-search-dialog/multi-select-search-dialog.ts:240-282 | the bulk fold appends, in order, the first eligible candidate per new uri, and keeps set and list in step |
| MultiSelectDialog.AddAllValid | frontend/src/app/components/multi-select-search-dialog/multi-select-search-dialog.ts:240-282 | a bulk selection keeps the selection invariant |
| MultiSelectDialog.AddAllSaturated | frontend/src/app/components/multi-select-search-dialog/multi-select-search-dialog.ts:240-282 | once every eligible candidate is selected, a bulk selection adds nothing |
| MultiSelectDialog.SelectAll | frontend/src/app/components/multi-select-search-dialog/multi-select-search-dialog.ts:240-258 | appends only album-type results, in result order, keeping the invariant |
| MultiSelectDialog.SelectAllIdempotent | frontend/src/app/components/multi-select-search-dialog/multi-select-search-dialog.ts:240-258 | selecting all twice is selecting all once |
| MultiSelectDialog.SelectAllCovers | frontend/src/app/components/multi-select-search-dialog/multi-select-search-dialog.ts:240-258 | afterwards every album-type result not in the library is selected |
| MultiSelectDialog.SelectAllChildren | frontend/src/app/components/multi-select-search-dialog/multi-select-search-dialog.ts:260-282 | nothing without cached children; otherwise appends the fresh children not in the library, keeping the invariant |
| MultiSelectDialog.ChildrenOf | frontend/src/app/components/multi-select-search-dialog/multi-select-search-dialog.ts:198-201 | the cached children of a record with a non-empty id, else none |
| MultiSelectDialog.SetAlbumRooms | frontend/src/app/components/multi-select-search-dialog/multi-select-search-dialog.ts:293-295 | only the room map changes, gaining the record's uri |
| MultiSelectDialog.AlbumRooms | frontend/src/app/components/multi-select-search-dialog/multi-select-search-dialog.ts:297-299 | the rooms chosen for the record's uri, else the default rooms |
| MultiSelectDialog.RoomsAfterSet | frontend/src/app/components/multi-select-search-dialog/multi-select-search-dialog.ts:293-299 | setting rooms is seen by exactly the records with that uri |
| MultiSelectDialog.RoomsLoaded | frontend/src/app/components/multi-select-search-dialog/multi-select-search-dialog.ts:144-152 | the rooms arrive, and a non-empty list becomes the default |
| MultiSelectDialog.LoadedRoomsAreDefault | frontend/src/app/components/multi-select-search-dialog/multi-select-search-dialog.ts:144-152 | loaded rooms become the rooms of every record nobody assigned rooms to |
| MultiSelectDialog.AddSelected | frontend/src/app/components/multi-select-search-dialog/multi-select-search-dialog.ts:284-291 | the selected records in order, each carrying its rooms |
| MultiSelectDialog.AssignedRoomsAreAdded | frontend/src/app/components/multi-select-search-dialog/multi-select-search-dialog.ts:284-299 | rooms set for a uri reach exactly the added records with that uri |
| MultiSelectDialog.SearchFor | frontend/src/app/components/multi-select-search-dialog/multi-select-search-dialog.ts:129 | a query is searched exactly when it has at least two characters |
| MultiSelectDialog.Searched | frontend/src/app/components/multi-select-search-dialog/multi-select-search-dialog.ts:125-141 | a short query clears the results; a search sets them (none on failure) and collapses the expanded row |
| MultiSelectDialog.SearchKeepsSelection | frontend/src/app/components/multi-select-search-dialog/multi-select-search-dialog.ts:125-141 | a search keeps the selection and its invariant |
| MultiSelectDialog.ToggleRow | frontend/src/app/components/multi-select-search-dialog/multi-select-search-dialog.ts:155-168 | albums do not expand; the expanded row collapses; another row expands and asks for children exactly when it has an id not yet cached |
| MultiSelectDialog.ToggleRowTwice | frontend/src/app/components/multi-select-search-dialog/multi-select-search-dialog.ts:155-168 | expanding and toggling again collapses, without a second request |
| MultiSelectDialog.ChildrenFetched | frontend/src/app/components/multi-select-search-dialog/multi-select-search-dialog.ts:170-196 | the id stops loading; a parent caches what was fetched, leaving the cache alone on failure; another type caches no children |
| MultiSelectDialog.FetchedChildrenAreCached | frontend/src/app/components/multi-select-search-dialog/multi-select-search-dialog.ts:170-201 | fetched children are shown for the parent, and its row never asks for them again |
| MultiSelectDialog.GroupedResults | frontend/src/app/components/multi-select-search-dialog/multi-select-search-dialog.ts:83-120 | no results give no groups; one group per group type, holding that type's results in order |
| MultiSelectDialog.GroupsPartitionResults | frontend/src/app/components/multi-select-search-dialog/multi-select-search-dialog.ts:83-120 | every result lies in exactly one group, that of its type; artist, playlist and album groups come first, in that order |
| MultiSelectDialog.GroupTypesDistinct | frontend/src/app/components/multi-select-search-dialog/multi-select-search-dialog.ts:83-120 | no type has two groups |
| MultiSelectDialog.GroupTypesRanked | frontend/src/app/components/multi-select-search-dialog/multi-select-search-dialog.ts:100-117 | known types precede the others, in display order |
| AdminPanel.Initial | frontend/src/app/components/admin-panel/admin-panel.ts:33-39 | an empty list, no highlight, an empty valid selection |
| AdminPanel.Refreshed | frontend/src/app/components/admin-panel/admin-panel.ts:67-74 | the list is a permutation of the data, the selection is cleared, the highlight kept |
| AdminPanel.RefreshedSorted | frontend/src/app/components/admin-panel/admin-panel.ts:70 | under a consistent collation the list is in title order |
| AdminPanel.Polled | frontend/src/app/components/admin-panel/admin-panel.ts:44-60 | a failed or falsy poll clears the highlight; otherwise the highlight is the album title of a playing state, and none when the state is not playing or names no album |
| AdminPanel.PlayingAfterPoll | frontend/src/app/components/admin-panel/admin-panel.ts:48-58 | after a state naming album t, exactly the records titled t show as playing, and only while PLAYING |
| AdminPanel.NothingPlayingAfterFailedPoll | frontend/src/app/components/admin-panel/admin-panel.ts:44-60 | after a failed poll nothing shows as playing |
| AdminPanel.TrackBy | frontend/src/app/components/admin-panel/admin-panel.ts:149-151 | the id when non-empty, else the uri |
| AdminPanel.TrackByDistinct | frontend/src/app/components/admin-panel/admin-panel.ts:149-151 | records with distinct non-empty ids get distinct keys |
| AdminPanel.SelectRowsSelects | frontend/src/app/components/admin-panel/admin-panel.ts:118 | selecting rows keeps each record once and selects exactly the union |
| AdminPanel.ToggleAllRows | frontend/src/app/components/admin-panel/admin-panel.ts:112-119 | clears when the counts agree, else the earlier picks stay first and the selection is exactly the earlier picks together with the rows |
| AdminPanel.ToggleAllRowsTwice | frontend/src/app/components/admin-panel/admin-panel.ts:105-119 | toggling a partial selection selects all, and toggling again clears |
| AdminPanel.AllSelected | frontend/src/app/components/admin-panel/admin-panel.ts:105-109 | true when as many records are selected as there are rows |
| AdminPanel.AllSelectedCountsOnly | frontend/src/app/components/admin-panel/admin-panel.ts:105-109 | a valid panel can count as all selected while one of its rows is not selected |
| AdminPanel.IsPlaying | frontend/src/app/components/admin-panel/admin-panel.ts:153-155 | the record shows as playing when its title is the highlighted album |
| AdminPanel.Deletions | frontend/src/app/components/admin-panel/admin-panel.ts:132-141 | a delete request for exactly the selected records with a non-empty id |
| AdminPanel.DeletionsSnoc | frontend/src/app/components/admin-panel/admin-panel.ts:132-141 | one more selected record adds its own request after the others, exactly when its id is non-empty |
| AdminPanel.DeleteSelected | frontend/src/app/components/admin-panel/admin-panel.ts:121-145 | nothing without a selection or confirmation; otherwise the list becomes its records without a selected id, in their order, the selection clears, and the deletions are sent |
| AdminPanel.DeletedAreGone | frontend/src/app/components/admin-panel/admin-panel.ts:121-145 | no record sharing an id with a selected one remains |
| PolledState.Get | frontend/src/app/components/album-grid/album-grid.ts:39-41 | a property read finds a value exactly on an object that has the key |
| PolledState.AlbumTitle | frontend/src/app/components/album-grid/album-grid.ts:41 | a title exactly when the metadata and its album are truthy, and the title is truthy |
| PolledState.Highlight | frontend/src/app/components/album-grid/album-grid.ts:41-45 | a highlight exactly for a playing state with an album, namely that album |
| PolledState.HighlightOfState | frontend/src/app/components/album-grid/album-grid.ts:41-45 | for a state as GET /state sends it, a title is highlighted exactly when PLAYING with that non-empty album |
| AlbumGrid.Initial | frontend/src/app/components/album-grid/album-grid.ts:21-23 | no albums, no highlight, and the controls' default state |
| AlbumGrid.Refreshed | frontend/src/app/components/album-grid/album-grid.ts:54-62 | the list as it arrives, unsorted |
| AlbumGrid.Polled | frontend/src/app/components/album-grid/album-grid.ts:37-47 | a failed or falsy poll changes nothing; otherwise the transport state is taken over and the highlight is the album title of a playing state, else none |
| AlbumGrid.AgreesWithAdmin | frontend/src/app/components/album-grid/album-grid.ts:37-47 | on a state that arrived, grid and panel highlight alike; on a failed poll only the panel clears |
| AlbumGrid.ControlsFollowPoll | frontend/src/app/components/album-grid/album-grid.ts:39 | after a poll the play button pauses exactly for the playing states and resumes otherwise |
| AlbumGrid.PlayAlbum | frontend/src/app/components/album-grid/album-grid.ts:64-67 | the uri to play; nothing exactly for an empty uri |
| AlbumGrid.PlayingAfterPoll | frontend/src/app/components/album-grid/album-grid.ts:69-71 | after a state naming album t, exactly the cards titled t show as playing, and only while PLAYING |
| AlbumGrid.IsPlaying | frontend/src/app/components/album-grid/album-grid.ts:69-71 | the card shows as playing when its title is the highlighted album |
| PlaybackControls.TogglePlay | frontend/src/app/components/playback-controls/playback-controls.ts:36-47 | pause exactly while playing, transitioning or buffering, else resume |
| PlaybackControls.IsPlayingOrBuffering | frontend/src/app/components/playback-controls/playback-controls.ts:44-47 | the transport state is PLAYING, TRANSITIONING or BUFFERING |
| PlaybackControls.ToggleResumesOtherwise | frontend/src/app/components/playback-controls/playback-controls.ts:44-47 | any other string, a non-string or undefined resumes |
| PlaybackControls.DefaultResumes | frontend/src/app/components/playback-controls/playback-controls.ts:17 | with the default state the toggle resumes |
| PlaybackControls.VolumeUp | frontend/src/app/components/playback-controls/playback-controls.ts:49-51 | exactly one adjustment, of +5 |
| PlaybackControls.VolumeDown | frontend/src/app/components/playback-controls/playback-controls.ts:53-55 | exactly one adjustment, of -5 |
| PlaybackControls.VolumeStepsCancel | frontend/src/app/components/playback-controls/playback-controls.ts:49-55 | the two steps are 5 and cancel each other |
| RoomService.Load | frontend/src/app/services/room.service.ts:24-29 | a room exactly when there is storage holding the key, namely the stored value |
| RoomService.Create | frontend/src/app/services/room.service.ts:9 | a new service starts with the stored room |
| RoomService.Save | frontend/src/app/services/room.service.ts:31-35 | with storage, sets the key to the room and keeps every other key; without, stays without |
| RoomService.SetSelectedRoom | frontend/src/app/services/room.service.ts:15-18 | selects the room and saves it |
| RoomService.HasSelectedRoom | frontend/src/app/services/room.service.ts:20-22 | a room is held and it is not the empty string |
| RoomService.SaveThenLoad | frontend/src/app/services/room.service.ts:9-35 | a saved room is the initial room of the next service on the same storage |
| RoomService.SetThenHas | frontend/src/app/services/room.service.ts:15-22 | after setting, a room is selected exactly when its name is non-empty |
| DeviceNameInterceptor.Intercept | frontend/src/app/interceptors/device-name.interceptor.ts:5-26 | the header is set to the room for a non-empty room outside library writes, otherwise the request is unchanged; other headers are kept and none but the device-name header is added |
| DeviceNameInterceptor.InterceptIdempotent | frontend/src/app/interceptors/device-name.interceptor.ts:15-26 | intercepting twice is intercepting once |
| DeviceNameInterceptor.HeaderFollowsService | frontend/src/app/interceptors/device-name.interceptor.ts:6-26 | the header is added exactly when the room service holds a room and the request is not a library write |
| DeviceNameInterceptor.LibraryRoutes | frontend/src/app/interceptors/device-name.interceptor.ts:15 | reading the library carries the room; adding, updating and deleting albums do not |
| DeviceNameInterceptor.IsAdminRequest | frontend/src/app/interceptors/device-name.interceptor.ts:15 | a POST, PUT or DELETE whose url contains /albums |

## Left out

- File I/O is a value: the `fs` calls, the storage service's write queue and the 500 answers for unreadable or unparsable JSON are not modelled.
- The UDP sockets, multicast membership, resend timers and decoding of UDP payloads as UTF-8 text are not modelled. Discovery takes what each socket heard as input.
- RxJS intervals and subscriptions are not modelled, nor are Angular change detection, templates and dialogs. The poll, refresh and fetch handlers are modelled as what they do once an answer arrives.
- The Spotify token middleware and the `/sonos/devices` route are not modelled. Both only forward to services outside this model.
- The HTTP client wrappers of `frontend/src/app/services/api.ts` are not modelled: the requests they send are the commands and urls of the model.
- Only the urls and choices of text-to-speech are modelled: writing the speech file, the static-file route and the cleanup timer are left out.
- Zod's issue texts are not modelled: a failed `Schemas.Parse` carries the failing keys, and `Validation.Validate` takes the issues as input. The `.url()` check is a parameter.
- `localeCompare` is a collation parameter. Orderings are proved for any collation whose `<= 0` is a total preorder.
- `Array.prototype.sort` is modelled as a stable insertion sort.
- Object identity in the dialog's and the panel's selections is modelled as value equality of records.
- Request body fields other than strings are left out: the Sonos handlers read `deviceName`, `uri`, `text` and `lang` as optional strings, and `volume`, `adjustment` and `deviceNames` as any JSON value.
- HTTP header names are compared case-sensitively.
- `confirm()` in the admin panel is a boolean parameter.
- `openSearchDialog` and `addAlbums` of the admin panel are not modelled: they forward the dialog's `AddSelected` records to POST requests. The refresh after deletion is the existing `Refreshed`.
- SpotifyRoutes.FetchAllPages: the error answers (500) of the artist and playlist routes are left out; a page fetch cannot fail in the model.
- Metadata.ParseMetadata: only string input is modelled; a non-string `trackMetaData` is not.
- RoomUtils.RoomSymbol: upper-casing is modelled for Latin-1 letters only, not for the full Unicode case mapping of `toUpperCase`. The German sharp s, which `toUpperCase` turns into two letters, and letters beyond Latin-1 are left unchanged. `substring(0, 2)` takes two characters, not two UTF-16 units.
- RoomUtils.HashLoop: the hash is exact integer arithmetic, over characters: `charCodeAt` walks the two surrogate units of a character outside the Basic Multilingual Plane, so such names hash differently. JavaScript's doubles agree with it for names shorter than about two million code units.
- SonosRoutes.Notify: it states which calls are made and how many, not their order, which follows the targets. A failed notification is only logged by the source, so the model does not represent it.
- Schemas.Parse: lengths count characters, not UTF-16 units. A title of 101 characters outside the Basic Multilingual Plane passes `.max(200)` here, although Zod counts 202 units and rejects it.
- MultiSelectDialog.SearchFor: `length >= 2` counts characters, so a query of one character outside the Basic Multilingual Plane is not searched here, although JavaScript counts two units and searches it.
- AlbumRoutes.Put: only the declared string fields of an update are modelled. The route does not validate its body and spreads it into the stored record, so unknown keys, `null` and non-string values would be stored and answered.
- Network.GetLocalIp: the table order is the key order of `os.networkInterfaces()`, taken as given.
