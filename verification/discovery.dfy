/** Discovery of Sonos players by SSDP M-SEARCH (section 1.3 of the UPnP
    Device Architecture 1.1). The sockets, multicast membership and resend
    timers are left out; what each interface's socket heard before its
    timeout is a parameter, and the model covers how replies become device
    records and how the per-interface lists are merged. */
module Discovery {
  import opened Wrappers
  import opened Seqs
  import opened Text
  import opened Network

  datatype Reply = Reply(host: string, text: string)

  /** What a socket observes before its timeout: a reply or a socket error. */
  datatype Event = Response(reply: Reply) | SocketError

  datatype Device = Device(host: string, model: string)

  function Host(d: Device): string {
    d.host
  }

  // ------------------------------------------------ /SERVER.{0,200}\((.{2,50})\)/

  const ServerTag: string := "SERVER"
  const MaxGap: nat := 200
  const MinModel: nat := 2
  const MaxModel: nat := 50

  /** `.` matches every character of `s[a..b]`. */
  predicate NoLineTerminator(s: string, a: nat, b: nat)
    requires a <= b <= |s|
  {
    forall k | a <= k < b :: !IsLineTerminator(s[k])
  }

  /** After the `(` at `p`, `.{c}\)` matches. */
  predicate CaptureOk(s: string, p: nat, c: nat) {
    p + 1 + c < |s| && NoLineTerminator(s, p + 1, p + 1 + c) && s[p + 1 + c] == ')'
  }

  /** After "SERVER" at `i`, `.{g}\(` matches and `(.{c})\)` follows. */
  predicate GapMatch(s: string, i: nat, g: nat, c: nat) {
    && i + |ServerTag| + g < |s|
    && NoLineTerminator(s, i + |ServerTag|, i + |ServerTag| + g)
    && s[i + |ServerTag| + g] == '('
    && MinModel <= c <= MaxModel
    && CaptureOk(s, i + |ServerTag| + g, c)
  }

  /** The whole pattern matches at `i` with `g` gap characters and a `c`-character capture. */
  predicate IsMatch(s: string, i: nat, g: nat, c: nat) {
    OccursAt(s, ServerTag, i) && g <= MaxGap && GapMatch(s, i, g, c)
  }

  /** The match the backtracking search finds: leftmost start, then the
      longest gap, then the longest capture. */
  ghost predicate Preferred(s: string, i: nat, g: nat, c: nat) {
    && IsMatch(s, i, g, c)
    && (forall i': nat, g': nat, c': nat | i' < i :: !IsMatch(s, i', g', c'))
    && (forall g': nat, c': nat | g < g' :: !IsMatch(s, i, g', c'))
    && (forall c': nat | c < c' :: !IsMatch(s, i, g, c'))
  }

  ghost predicate NoMatch(s: string) {
    forall i: nat, g: nat, c: nat :: !IsMatch(s, i, g, c)
  }

  /** The greedy `.{2,50}`: the longest capture of at most `c` characters. */
  function SearchCapture(s: string, p: nat, c: nat): (r: Option<nat>)
    ensures r.Some? ==> MinModel <= r.value <= c && CaptureOk(s, p, r.value)
    ensures r.Some? ==> forall c': nat | r.value < c' <= c :: !CaptureOk(s, p, c')
    ensures r.None? ==> forall c': nat | MinModel <= c' <= c :: !CaptureOk(s, p, c')
  {
    if c < MinModel then None
    else if CaptureOk(s, p, c) then Some(c)
    else SearchCapture(s, p, c - 1)
  }

  /** The greedy `.{0,200}`: the longest gap of at most `g` characters after which the rest matches. */
  function SearchGap(s: string, i: nat, g: nat): (r: Option<(nat, nat)>)
    ensures r.Some? ==> r.value.0 <= g && GapMatch(s, i, r.value.0, r.value.1)
    ensures r.Some? ==> forall c': nat | r.value.1 < c' :: !GapMatch(s, i, r.value.0, c')
    ensures r.Some? ==> forall g': nat, c': nat | r.value.0 < g' <= g :: !GapMatch(s, i, g', c')
    ensures r.None? ==> forall g': nat, c': nat | g' <= g :: !GapMatch(s, i, g', c')
  {
    var p := i + |ServerTag| + g;
    var here :=
      if p < |s| && NoLineTerminator(s, i + |ServerTag|, p) && s[p] == '(' then SearchCapture(s, p, MaxModel)
      else None;
    if here.Some? then Some((g, here.value))
    else if g == 0 then None
    else SearchGap(s, i, g - 1)
  }

  /** The leftmost start at or after `i` where the pattern matches. */
  function SearchStart(s: string, i: nat): (r: Option<(nat, nat, nat)>)
    requires forall i': nat, g: nat, c: nat | i' < i :: !IsMatch(s, i', g, c)
    ensures r.Some? ==> i <= r.value.0 && Preferred(s, r.value.0, r.value.1, r.value.2)
    ensures r.None? ==> forall i': nat, g: nat, c: nat | i <= i' :: !IsMatch(s, i', g, c)
    decreases |s| - i
  {
    if |s| < i + |ServerTag| then None
    else
      var here := if OccursAt(s, ServerTag, i) then SearchGap(s, i, MaxGap) else None;
      if here.Some? then Some((i, here.value.0, here.value.1))
      else SearchStart(s, i + 1)
  }

  /** The model named in a reply's SERVER header, else "Unknown". */
  function ServerModel(s: string): (r: string)
    ensures NoMatch(s) ==> r == "Unknown"
    ensures !NoMatch(s) ==> exists i: nat, g: nat, c: nat :: Preferred(s, i, g, c) && r == Captured(s, i, g, c)
  {
    match SearchStart(s, 0)
    case Some((i, g, c)) => Captured(s, i, g, c)
    case None => "Unknown"
  }

  function Captured(s: string, i: nat, g: nat, c: nat): string
    requires IsMatch(s, i, g, c)
  {
    var p := i + |ServerTag| + g;
    s[p + 1..p + 1 + c]
  }

  /** The preferred match is unique, so the model is determined by the reply. */
  lemma PreferredIsUnique(s: string, i: nat, g: nat, c: nat, i': nat, g': nat, c': nat)
    requires Preferred(s, i, g, c) && Preferred(s, i', g', c')
    ensures i == i' && g == g' && c == c'
  {
  }

  // ------------------------------------------------------------- one interface

  /** A reply is recorded only when its text mentions "Sonos". */
  predicate FromSonos(r: Reply) {
    Contains(r.text, "Sonos")
  }

  function ReplyHost(r: Reply): string {
    r.host
  }

  function ToDevice(r: Reply): Device {
    Device(r.host, ServerModel(r.text))
  }

  /** The message handler: record a Sonos reply unless its host is already listed. */
  function OnMessage(devices: seq<Device>, r: Reply): seq<Device> {
    if !FromSonos(r) then devices
    else if Any(devices, (d: Device) => d.host == r.host) then devices
    else devices + [ToDevice(r)]
  }

  /** The replies in the order they arrived. */
  function Replies(events: seq<Event>): (r: seq<Reply>) {
    Map(Filter(events, (e: Event) => e.Response?), (e: Event) requires e.Response? => e.reply)
  }

  /** The handler applied to each reply in turn, starting from the empty list. */
  function Collect(rs: seq<Reply>): seq<Device> {
    if |rs| == 0 then [] else OnMessage(Collect(rs[..|rs| - 1]), rs[|rs| - 1])
  }

  /** `discoverOnInterface`: a socket error resolves with no devices, otherwise
      the devices collected before the timeout. */
  function DiscoverOnInterface(events: seq<Event>): (r: seq<Device>)
    ensures SocketError in events ==> r == []
    ensures SocketError !in events ==> r == KeepFirst(Map(Filter(Replies(events), FromSonos), ToDevice), Host)
  {
    CollectIsKeepFirst(Replies(events));
    if SocketError in events then [] else Collect(Replies(events))
  }

  lemma AnyHostIsKey(devices: seq<Device>, host: string)
    ensures Any(devices, (d: Device) => d.host == host) <==> host in Keys(devices, Host)
  {
    if host in Keys(devices, Host) {
      var i :| 0 <= i < |devices| && Host(devices[i]) == host;
    }
  }

  lemma MapAppend<A, B>(s: seq<A>, x: A, f: A -> B)
    ensures Map(s + [x], f) == Map(s, f) + [f(x)]
  {
  }

  /** Folding the handler over the replies keeps, per host, the first Sonos reply. */
  lemma {:induction false} CollectIsKeepFirst(rs: seq<Reply>)
    ensures Collect(rs) == KeepFirst(Map(Filter(rs, FromSonos), ToDevice), Host)
  {
    if |rs| > 0 {
      var front := rs[..|rs| - 1];
      var last := rs[|rs| - 1];
      assert rs == front + [last];
      CollectIsKeepFirst(front);
      FilterAppend(front, [last], FromSonos);
      var before := Map(Filter(front, FromSonos), ToDevice);
      if FromSonos(last) {
        assert Filter([last], FromSonos) == [last];
        MapAppend(Filter(front, FromSonos), last, ToDevice);
        var all := before + [ToDevice(last)];
        assert all[..|all| - 1] == before;
        AnyHostIsKey(KeepFirst(before, Host), last.host);
      } else {
        assert Filter([last], FromSonos) == [];
        assert Filter(rs, FromSonos) == Filter(front, FromSonos);
      }
    }
  }

  /** Every recorded device comes from a Sonos reply, one per host, with the
      model of the first such reply from that host. */
  lemma InterfaceDevices(events: seq<Event>)
    requires SocketError !in events
    ensures var r := DiscoverOnInterface(events);
      var hits := Filter(Replies(events), FromSonos);
      && DistinctKeys(r, Host)
      && Keys(r, Host) == Keys(hits, ReplyHost)
      && forall i | 0 <= i < |r| :: FirstWithKey(Map(hits, ToDevice), Host, r[i].host) == Some(r[i])
  {
    var hits := Filter(Replies(events), FromSonos);
    var devices := Map(hits, ToDevice);
    KeepFirstKeepsFirst(devices, Host);
    KeysOfMap(hits, ToDevice, Host, ReplyHost);
  }

  // ------------------------------------------------------------- all interfaces

  /** The results of the per-interface discoveries, in interface order;
      `heard` gives what the socket bound to an address observed. */
  function PerInterface(aliases: seq<Alias>, heard: string -> seq<Event>): (r: seq<seq<Device>>)
    ensures |r| == |aliases|
    ensures forall k | 0 <= k < |r| :: r[k] == DiscoverOnInterface(heard(aliases[k].address))
  {
    Map(aliases, (a: Alias) => DiscoverOnInterface(heard(a.address)))
  }

  /** The merge loop: keeps a device unless its host was seen before. */
  method DedupByHost(all: seq<Device>) returns (unique: seq<Device>)
    ensures unique == KeepFirst(all, Host)
  {
    unique := [];
    var seen: set<string> := {};
    for i := 0 to |all|
      invariant unique == KeepFirst(all[..i], Host)
      invariant seen == Keys(unique, Host)
    {
      assert all[..i + 1][..i] == all[..i];
      var device := all[i];
      if device.host !in seen {
        KeysAppend(unique, device, Host);
        unique := unique + [device];
        seen := seen + {device.host};
      }
    }
    assert all[..|all|] == all;
  }

  /** `findSonosDevices`: no qualifying interface gives no devices; otherwise
      the flattened per-interface lists with the first device per host kept. */
  method FindSonosDevices(ifaces: Interfaces, heard: string -> seq<Event>) returns (devices: seq<Device>)
    ensures |QualifyingAliases(ifaces)| == 0 ==> devices == []
    ensures var all := Flatten(PerInterface(QualifyingAliases(ifaces), heard));
      && DistinctKeys(devices, Host)
      && Keys(devices, Host) == Keys(all, Host)
      && forall i | 0 <= i < |devices| :: FirstWithKey(all, Host, devices[i].host) == Some(devices[i])
    ensures devices == KeepFirst(Flatten(PerInterface(QualifyingAliases(ifaces), heard)), Host)
  {
    var tasks := QualifyingAliases(ifaces);
    var all := Flatten(PerInterface(tasks, heard));
    if |tasks| == 0 {
      assert all == [];
      return [];
    }
    devices := DedupByHost(all);
    KeepFirstKeepsFirst(all, Host);
  }
}
