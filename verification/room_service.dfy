/** The selected room, kept in a signal and mirrored in the browser's local
    storage under a fixed key. Storage is `None` where there is no window
    or no local storage (server-side rendering). */
module RoomService {
  import opened Wrappers

  type Storage = Option<map<string, string>>

  const StorageKey := "selected_sonos_room"

  datatype Service = Service(selected: Option<string>, storage: Storage)

  /** `loadFromStorage`: the stored value, or `null` without storage or
      without a stored value. */
  function Load(storage: Storage): (r: Option<string>)
    ensures r.Some? <==> storage.Some? && StorageKey in storage.value
    ensures r.Some? ==> r.value == storage.value[StorageKey]
  {
    if storage.Some? && StorageKey in storage.value then Some(storage.value[StorageKey]) else None
  }

  /** A fresh service reads its initial room from storage. */
  function Create(storage: Storage): (s: Service)
    ensures s.storage == storage && s.selected == Load(storage)
  {
    Service(Load(storage), storage)
  }

  /** `saveToStorage`: writes the key when there is storage. */
  function Save(storage: Storage, room: string): (r: Storage)
    ensures r.Some? <==> storage.Some?
    ensures r.Some? ==> r.value.Keys == storage.value.Keys + {StorageKey} && r.value[StorageKey] == room
    ensures r.Some? ==> forall k | k in storage.value && k != StorageKey :: r.value[k] == storage.value[k]
  {
    if storage.Some? then Some(storage.value[StorageKey := room]) else None
  }

  /** `setSelectedRoom`. */
  function SetSelectedRoom(s: Service, room: string): (r: Service)
    ensures r.selected == Some(room)
    ensures r.storage == Save(s.storage, room)
  {
    Service(Some(room), Save(s.storage, room))
  }

  /** `hasSelectedRoom`: `!!room`, so false for `null` and for ''. */
  predicate HasSelectedRoom(s: Service) {
    s.selected.Some? && s.selected.value != ""
  }

  /** A room saved by one service is the initial room of the next one that
      reads the same storage; without storage the next one starts with none. */
  lemma SaveThenLoad(s: Service, room: string)
    ensures Create(SetSelectedRoom(s, room).storage).selected ==
      if s.storage.Some? then Some(room) else None
  {
  }

  /** Setting a room marks one as selected exactly when its name is not empty. */
  lemma SetThenHas(s: Service, room: string)
    ensures HasSelectedRoom(SetSelectedRoom(s, room)) <==> room != ""
  {
  }
}
