/** The `/sonos` routes: which device calls each request issues, in which
    order, and what it answers. Device lookup and the device calls are
    parameters: `lookup` finds a device by name, and `fails` says which call
    rejects, with what message. A thrown error reaches the client through
    `asyncHandler` and the error middleware. */
module SonosRoutes {
  import opened Wrappers
  import opened Json
  import opened Http
  import opened Text
  import opened Seqs
  import opened ErrorHandler
  import Config
  import Metadata
  import Network

  /** The transport information an AVTransport service reports. */
  datatype Transport = Transport(state: string, trackUri: string, trackMetaData: string)

  /** A player; `avTransport` is `None` when the device lacks that service. */
  datatype Device = Device(name: string, avTransport: Option<Transport>, renderingControl: bool)

  datatype Command =
    | GetTransportInfo
    | GetPositionInfo
    | RemoveAllTracksFromQueue
    | AddUriToQueue(uri: string)
    | SwitchToQueue
    | Play
    | SetAVTransportUri(uri: string)
    | Pause
    | Next
    | Previous
    | Stop
    | RenderingSetVolume(volume: Value)
    | SetVolume(volume: Value)
    | RenderingSetRelativeVolume(adjustment: Value)
    | SetRelativeVolume(adjustment: Value)
    | PlayNotification(trackUri: string)

  datatype Call = Call(device: Device, command: Command)

  type Lookup = string -> Option<Device>
  type Fails = Call -> Option<string>

  /** What a handler did: the calls it issued, in order, and either the JSON
      it answered with or the error it threw. */
  datatype Handled = Handled(outcome: Result<Value, Error>, calls: seq<Call>)

  /** The response the client sees. */
  function Respond(h: Handled): Response {
    match h.outcome
    case Success(v) => Ok(v)
    case Failure(e) => HandleError(e)
  }

  // ---------------------------------------------------------- request bodies

  /** A POST body as the handlers read it; absent fields are `None`. */
  datatype Body = Body(
    deviceName: Option<string>,
    uri: Option<string>,
    text: Option<string>,
    lang: Option<string>,
    volume: Option<Value>,
    adjustment: Option<Value>,
    deviceNames: Option<Value>)

  const EmptyBody := Body(None, None, None, None, None, None, None)

  /** `!x` for an optional string: absent or empty. */
  predicate Missing(x: Option<string>) {
    x.None? || x.value == ""
  }

  /** The router's middleware on a POST: a missing body becomes `{}`, and a
      missing or empty deviceName becomes the configured default. */
  function Normalize(body: Option<Body>): (r: Body)
    ensures !Missing(r.deviceName)
    ensures body.Some? && !Missing(body.value.deviceName) ==> r == body.value
    ensures body.Some? && Missing(body.value.deviceName) ==> r == body.value.(deviceName := Some(Config.DefaultDeviceName))
    ensures body.None? ==> r == EmptyBody.(deviceName := Some(Config.DefaultDeviceName))
  {
    var b := body.GetOr(EmptyBody);
    if Missing(b.deviceName) then b.(deviceName := Some(Config.DefaultDeviceName)) else b
  }

  /** Normalizing twice changes nothing more. */
  lemma NormalizeIdempotent(body: Option<Body>)
    ensures Normalize(Some(Normalize(body))) == Normalize(body)
  {
  }

  /** The device name a body names once normalized: a missing or empty
      name stands for the configured default. */
  function NameOf(b: Body): string {
    if Missing(b.deviceName) then Config.DefaultDeviceName else b.deviceName.value
  }

  /** The handlers see the body the middleware normalized: naming its
      device is the same before and after normalizing. */
  lemma NameOfNormalized(b: Body)
    ensures NameOf(Normalize(Some(b))) == NameOf(b)
    ensures Normalize(Some(b)).deviceName == Some(NameOf(b))
  {
  }

  // ---------------------------------------------------------- calls in order

  /** The position of the first of `commands[from..]` whose call rejects,
      or `|commands|` when none does. */
  function FirstFailure(device: Device, commands: seq<Command>, fails: Fails, from: nat): (n: nat)
    requires from <= |commands|
    ensures from <= n <= |commands|
    ensures n < |commands| ==> fails(Call(device, commands[n])).Some?
    ensures forall i | from <= i < n :: fails(Call(device, commands[i])).None?
    decreases |commands| - from
  {
    if from == |commands| then from
    else if fails(Call(device, commands[from])).Some? then from
    else FirstFailure(device, commands, fails, from + 1)
  }

  /** The calls that issue `commands` on `device`, in order. */
  function Calls(device: Device, commands: seq<Command>): (r: seq<Call>)
    ensures |r| == |commands|
    ensures forall i | 0 <= i < |r| :: r[i] == Call(device, commands[i])
  {
    seq(|commands|, i requires 0 <= i < |commands| => Call(device, commands[i]))
  }

  /** Awaits the calls in order; the first one that rejects ends the sequence with its error. */
  function RunAll(device: Device, commands: seq<Command>, fails: Fails): (r: (seq<Call>, Option<Error>))
    ensures |r.0| <= |commands|
    ensures forall i | 0 <= i < |r.0| :: r.0[i] == Call(device, commands[i])
    ensures r.1.None? <==> forall i | 0 <= i < |commands| :: fails(Call(device, commands[i])).None?
    ensures r.1.None? ==> |r.0| == |commands|
    ensures r.1.Some? ==> |r.0| > 0 && fails(r.0[|r.0| - 1]).Some? && r.1 == Some(Other(fails(r.0[|r.0| - 1]).value))
    ensures r.1.Some? ==> forall i | 0 <= i < |r.0| - 1 :: fails(r.0[i]).None?
  {
    var n := FirstFailure(device, commands, fails, 0);
    if n == |commands| then (Calls(device, commands), None)
    else
      var failed := Call(device, commands[n]);
      (Calls(device, commands[..n + 1]), Some(Other(fails(failed).value)))
  }

  /** The JSON answer after the calls, or the error of the one that failed. */
  function After(run: (seq<Call>, Option<Error>), answer: Value): Handled {
    if run.1.Some? then Handled(Failure(run.1.value), run.0) else Handled(Success(answer), run.0)
  }

  function Confirmation(message: string): Value {
    JObj(map["success" := JBool(true), "message" := JStr(message)])
  }

  function NotFound(name: string): Error {
    MakeAppError(404, "Device '" + name + "' not found", None)
  }

  // ---------------------------------------------------------- GET /state

  function StateJson(t: Transport): Value {
    JObj(map[
      "transportState" := JStr(t.state),
      "currentUri" := JStr(t.trackUri),
      "trackMetaData" := Metadata.AsJson(Metadata.ParseMetadata(t.trackMetaData))])
  }

  /** GET /state: a stopped state for an unknown device, 503 without an
      AVTransport service, else the transport state, track uri and parsed
      track metadata. */
  function State(deviceName: Option<string>, lookup: Lookup, fails: Fails): (r: Handled)
    ensures var name := if Missing(deviceName) then Config.DefaultDeviceName else deviceName.value;
      && (lookup(name).None? ==>
            r == Handled(Success(JObj(map["transportState" := JStr("STOPPED"), "currentUri" := JNull])), []))
      && (lookup(name).Some? && lookup(name).value.avTransport.None? ==>
            r == Handled(Failure(AppError(503, "AVTransportService not available on device", true)), []))
      && (lookup(name).Some? && lookup(name).value.avTransport.Some? ==>
            var transport := Call(lookup(name).value, GetTransportInfo);
            var position := Call(lookup(name).value, GetPositionInfo);
            && (fails(transport).Some? ==> r == Handled(Failure(Other(fails(transport).value)), [transport]))
            && (fails(transport).None? && fails(position).Some? ==>
                  r == Handled(Failure(Other(fails(position).value)), [transport, position]))
            && (r.outcome.Success? <==> fails(transport).None? && fails(position).None?)
            && (r.outcome.Success? ==>
                  r == Handled(Success(StateJson(lookup(name).value.avTransport.value)), [transport, position])))
  {
    var name := if Missing(deviceName) then Config.DefaultDeviceName else deviceName.value;
    match lookup(name)
    case None => Handled(Success(JObj(map["transportState" := JStr("STOPPED"), "currentUri" := JNull])), [])
    case Some(device) =>
      if device.avTransport.None? then
        Handled(Failure(MakeAppError(503, "AVTransportService not available on device", None)), [])
      else
        After(RunAll(device, [GetTransportInfo, GetPositionInfo], fails), StateJson(device.avTransport.value))
  }

  // ---------------------------------------------------------- POST /play

  /** The calls that start `uri` once the queue is (attempted to be) cleared or not. */
  function PlayCommands(uri: string): seq<Command> {
    if StartsWith(uri, "spotify:") then [AddUriToQueue(uri), SwitchToQueue, Play]
    else [SetAVTransportUri(uri), Play]
  }

  /** POST /play: 400 without a uri before any lookup, 404 for an unknown
      device; a Spotify uri clears the queue (a failure there is ignored),
      queues the uri, switches to the queue and plays; any other uri is set
      as the transport uri and played. */
  function PlayRoute(body: Body, lookup: Lookup, fails: Fails): (r: Handled)
    ensures Missing(body.uri) ==> r == Handled(Failure(AppError(400, "Missing uri", true)), [])
    ensures !Missing(body.uri) && lookup(NameOf(body)).None? ==> r == Handled(Failure(NotFound(NameOf(body))), [])
    ensures !Missing(body.uri) && lookup(NameOf(body)).Some? ==>
      var d := lookup(NameOf(body)).value;
      var clear := if StartsWith(body.uri.value, "spotify:") then [Call(d, RemoveAllTracksFromQueue)] else [];
      var run := RunAll(d, PlayCommands(body.uri.value), fails);
      && clear <= r.calls
      && r.calls == clear + run.0
      && (r.outcome.Success? <==> forall c | c in PlayCommands(body.uri.value) :: fails(Call(d, c)).None?)
      && (r.outcome.Success? ==> r.outcome.value == Confirmation("Playing " + body.uri.value + " on " + NameOf(body)))
      && (r.outcome.Failure? ==> run.1 == Some(r.outcome.error))
  {
    if Missing(body.uri) then Handled(Failure(MakeAppError(400, "Missing uri", None)), [])
    else
      var name := NameOf(body);
      var uri := body.uri.value;
      match lookup(name)
      case None => Handled(Failure(NotFound(name)), [])
      case Some(d) =>
        var clear := if StartsWith(uri, "spotify:") then [Call(d, RemoveAllTracksFromQueue)] else [];
        var run := RunAll(d, PlayCommands(uri), fails);
        var h := After(run, Confirmation("Playing " + uri + " on " + name));
        Handled(h.outcome, clear + h.calls)
  }

  /** When no call fails, a Spotify uri issues exactly the four queue calls
      and any other uri exactly two. */
  lemma PlaySequence(body: Body, lookup: Lookup, fails: Fails)
    requires !Missing(body.uri) && lookup(NameOf(body)).Some?
    requires forall c :: fails(c).None?
    ensures var d := lookup(NameOf(body)).value; var uri := body.uri.value;
      && PlayRoute(body, lookup, fails).outcome.Success?
      && (StartsWith(uri, "spotify:") ==>
            PlayRoute(body, lookup, fails).calls ==
            [Call(d, RemoveAllTracksFromQueue), Call(d, AddUriToQueue(uri)), Call(d, SwitchToQueue), Call(d, Play)])
      && (!StartsWith(uri, "spotify:") ==>
            PlayRoute(body, lookup, fails).calls == [Call(d, SetAVTransportUri(uri)), Call(d, Play)])
  {
  }

  // ---------------------------------------------------------- simple actions

  datatype Action = NextAction | PreviousAction | StopAction | PlayAction | PauseAction

  function ActionCommand(a: Action): Command {
    match a
    case NextAction => Next
    case PreviousAction => Previous
    case StopAction => Stop
    case PlayAction => Play
    case PauseAction => Pause
  }

  /** The confirmation each action answers with. */
  function ActionMessage(a: Action, name: string): string {
    match a
    case NextAction => "Next executed on " + name
    case PreviousAction => "Previous executed on " + name
    case StopAction => "Stop executed on " + name
    case PlayAction => "Play executed on " + name
    case PauseAction => "Paused " + name
  }

  /** POST /pause, /next, /previous, /stop and /resume: 404 for an unknown
      device, otherwise exactly one call to that device. */
  function SimpleAction(a: Action, body: Body, lookup: Lookup, fails: Fails): (r: Handled)
    ensures lookup(NameOf(body)).None? ==> r == Handled(Failure(NotFound(NameOf(body))), [])
    ensures lookup(NameOf(body)).Some? ==> r.calls == [Call(lookup(NameOf(body)).value, ActionCommand(a))]
    ensures lookup(NameOf(body)).Some? ==>
      (r.outcome.Success? <==> fails(Call(lookup(NameOf(body)).value, ActionCommand(a))).None?)
    ensures lookup(NameOf(body)).Some? && r.outcome.Success? ==>
      r.outcome.value == Confirmation(ActionMessage(a, NameOf(body)))
    ensures lookup(NameOf(body)).Some? && r.outcome.Failure? ==>
      r.outcome.error == Other(fails(Call(lookup(NameOf(body)).value, ActionCommand(a))).value)
  {
    var name := NameOf(body);
    match lookup(name)
    case None => Handled(Failure(NotFound(name)), [])
    case Some(d) => After(RunAll(d, [ActionCommand(a)], fails), Confirmation(ActionMessage(a, name)))
  }

  /** /resume plays; the five actions issue five different commands. */
  lemma ResumeIssuesPlay()
    ensures ActionCommand(PlayAction) == Play
    ensures forall a, b | a != b :: ActionCommand(a) != ActionCommand(b)
  {
  }

  // ---------------------------------------------------------- volume

  /** POST /volume and /volume/relative: 400 only when the value is absent
      (0 is accepted), 404 for an unknown device; the rendering-control
      service is used when the device has one. */
  function VolumeRoute(relative: bool, body: Body, lookup: Lookup, fails: Fails): (r: Handled)
    ensures var v := if relative then body.adjustment else body.volume;
      && (v.None? ==> r == Handled(Failure(AppError(400, if relative then "Missing adjustment" else "Missing volume", true)), []))
      && (v.Some? && lookup(NameOf(body)).None? ==> r == Handled(Failure(AppError(404, "Device not found", true)), []))
      && (v.Some? && lookup(NameOf(body)).Some? ==>
            var d := lookup(NameOf(body)).value;
            var sent := Call(d,
              if relative then (if d.renderingControl then RenderingSetRelativeVolume(v.value) else SetRelativeVolume(v.value))
              else (if d.renderingControl then RenderingSetVolume(v.value) else SetVolume(v.value)));
            && r.calls == [sent]
            && (d.renderingControl <==> r.calls[0].command.RenderingSetVolume? || r.calls[0].command.RenderingSetRelativeVolume?)
            && (r.outcome.Success? <==> fails(sent).None?)
            && (r.outcome.Failure? ==> r.outcome.error == Other(fails(sent).value))
            && (r.outcome.Success? ==>
                  r.outcome.value == JObj(map["success" := JBool(true), (if relative then "adjustment" else "volume") := v.value])))
  {
    var v := if relative then body.adjustment else body.volume;
    if v.None? then Handled(Failure(MakeAppError(400, if relative then "Missing adjustment" else "Missing volume", None)), [])
    else
      match lookup(NameOf(body))
      case None => Handled(Failure(MakeAppError(404, "Device not found", None)), [])
      case Some(d) =>
        var command :=
          if relative then (if d.renderingControl then RenderingSetRelativeVolume(v.value) else SetRelativeVolume(v.value))
          else (if d.renderingControl then RenderingSetVolume(v.value) else SetVolume(v.value));
        var key := if relative then "adjustment" else "volume";
        After(RunAll(d, [command], fails), JObj(map["success" := JBool(true), key := v.value]))
  }

  /** A volume of 0 is a value, not a missing one: it is sent to the
      device, and the route succeeds unless that call rejects. */
  lemma ZeroVolumeAccepted(body: Body, lookup: Lookup, fails: Fails)
    requires body.volume == Some(JNum(0.0)) && lookup(NameOf(body)).Some?
    ensures var r := VolumeRoute(false, body, lookup, fails);
      && |r.calls| == 1
      && r.calls[0].command in {RenderingSetVolume(JNum(0.0)), SetVolume(JNum(0.0))}
      && (r.outcome.Success? <==> fails(r.calls[0]).None?)
  {
  }

  // ---------------------------------------------------------- text to speech

  datatype Voice = Voice(locale: string, shortName: string)

  /** `voices.find(exact) || voices.find(starts with 'de') || voices[0]`. */
  function SelectVoice(voices: seq<Voice>, lang: string): (r: Option<Voice>)
    ensures r.None? <==> |voices| == 0
    ensures Find(voices, (v: Voice) => v.locale == lang).Some? ==> r == Find(voices, (v: Voice) => v.locale == lang)
    ensures Find(voices, (v: Voice) => v.locale == lang).None? && Find(voices, (v: Voice) => StartsWith(v.locale, "de")).Some? ==>
      r == Find(voices, (v: Voice) => StartsWith(v.locale, "de"))
    ensures Find(voices, (v: Voice) => v.locale == lang).None? && Find(voices, (v: Voice) => StartsWith(v.locale, "de")).None? && |voices| > 0 ==>
      r == Some(voices[0])
  {
    var exact := Find(voices, (v: Voice) => v.locale == lang);
    if exact.Some? then exact
    else
      var german := Find(voices, (v: Voice) => StartsWith(v.locale, "de"));
      if german.Some? then german
      else if |voices| > 0 then Some(voices[0]) else None
  }

  /** The chosen voice is the first with the requested locale, or else the
      first German one, or else the first voice. */
  lemma SelectedVoiceIsFirst(voices: seq<Voice>, lang: string)
    requires |voices| > 0
    ensures var r := SelectVoice(voices, lang).value;
      exists i | 0 <= i < |voices| :: voices[i] == r
        && (r.locale == lang ==> forall j | 0 <= j < i :: voices[j].locale != lang)
        && (r.locale != lang ==> forall j | 0 <= j < |voices| :: voices[j].locale != lang)
  {
    var exact := Find(voices, (v: Voice) => v.locale == lang);
    var german := Find(voices, (v: Voice) => StartsWith(v.locale, "de"));
    if exact.Some? {
      var i :| 0 <= i < |voices| && voices[i] == exact.value && voices[i].locale == lang
        && forall j | 0 <= j < i :: voices[j].locale != lang;
    } else if german.Some? {
      var i :| 0 <= i < |voices| && voices[i] == german.value && StartsWith(voices[i].locale, "de");
    } else {
      assert voices[0] == SelectVoice(voices, lang).value;
    }
  }

  /** `Array.isArray(deviceNames) ? deviceNames : [deviceName || default]`. */
  function Targets(body: Body): (r: seq<Value>)
    ensures body.deviceNames.Some? && body.deviceNames.value.JArr? ==> r == body.deviceNames.value.items
    ensures !(body.deviceNames.Some? && body.deviceNames.value.JArr?) ==>
      r == [JStr(if Missing(body.deviceName) then Config.DefaultDeviceName else body.deviceName.value)]
  {
    if body.deviceNames.Some? && body.deviceNames.value.JArr? then body.deviceNames.value.items
    else [JStr(if Missing(body.deviceName) then Config.DefaultDeviceName else body.deviceName.value)]
  }

  /** The notifications sent: one per target that names a known device. */
  function Notify(targets: seq<Value>, lookup: Lookup, url: string): (r: seq<Call>)
    ensures |r| <= |targets|
    ensures |r| == |Filter(targets, (t: Value) => Names(t, lookup))|
    ensures forall i | 0 <= i < |r| :: r[i].command == PlayNotification(url)
    ensures forall i | 0 <= i < |targets| && Names(targets[i], lookup) ::
      Call(lookup(targets[i].s).value, PlayNotification(url)) in r
    ensures forall c | c in r :: exists i | 0 <= i < |targets| :: Names(targets[i], lookup) && lookup(targets[i].s) == Some(c.device)
  {
    NotificationsCount(targets, lookup, url);
    NotificationsCover(targets, lookup, url);
    NotificationsSound(targets, lookup, url);
    Notifications(targets, lookup, url)
  }

  /** The forEach over the targets: a notification for each one naming a known device. */
  function Notifications(targets: seq<Value>, lookup: Lookup, url: string): seq<Call> {
    if |targets| == 0 then []
    else
      var rest := Notifications(targets[1..], lookup, url);
      if Names(targets[0], lookup) then [Call(lookup(targets[0].s).value, PlayNotification(url))] + rest
      else rest
  }

  /** One notification per naming target, each playing the url. */
  lemma {:induction false} NotificationsCount(targets: seq<Value>, lookup: Lookup, url: string)
    ensures var r := Notifications(targets, lookup, url);
      && |r| == |Filter(targets, (t: Value) => Names(t, lookup))|
      && forall i | 0 <= i < |r| :: r[i].command == PlayNotification(url)
  {
    if |targets| > 0 {
      NotificationsCount(targets[1..], lookup, url);
    }
  }

  /** Every target naming a known device is notified. */
  lemma {:induction false} NotificationsCover(targets: seq<Value>, lookup: Lookup, url: string)
    ensures forall i | 0 <= i < |targets| && Names(targets[i], lookup) ::
      Call(lookup(targets[i].s).value, PlayNotification(url)) in Notifications(targets, lookup, url)
  {
    if |targets| > 0 {
      NotificationsCover(targets[1..], lookup, url);
      assert forall i | 1 <= i < |targets| :: targets[i] == targets[1..][i - 1];
    }
  }

  /** Every notification goes to the device of a naming target. */
  lemma {:induction false} NotificationsSound(targets: seq<Value>, lookup: Lookup, url: string)
    ensures forall c | c in Notifications(targets, lookup, url) ::
      exists i | 0 <= i < |targets| :: Names(targets[i], lookup) && lookup(targets[i].s) == Some(c.device)
  {
    if |targets| > 0 {
      NotificationsSound(targets[1..], lookup, url);
      assert forall i | 1 <= i < |targets| :: targets[i] == targets[1..][i - 1];
    }
  }

  /** A target that is a string naming a known device. */
  predicate Names(t: Value, lookup: Lookup) {
    t.JStr? && lookup(t.s).Some?
  }

  /** The url the players fetch the speech file from. */
  function TtsUrl(ifaces: Network.Interfaces, now: nat): string {
    "http://" + Network.LocalIp(ifaces) + ":" + NatToString(Config.Port) + "/tts-static/tts-" + NatToString(now) + ".mp3"
  }

  /** The message of the TypeError raised when there is no voice at all. */
  const NoVoiceMessage: string := "Cannot read properties of undefined (reading 'ShortName')"

  /** POST /tts: 400 without text; otherwise synthesise with the selected voice
      and send a notification to every target that names a device. A failure
      to list voices, to find any voice, or to synthesise answers 500 with
      "TTS failed: " and the cause; a failed notification is only logged.
      `voices` is what listing the voices gave, `synthesis` the synthesis and
      file-write error, if any, and `now` the clock in milliseconds. */
  function Tts(body: Body, voices: Result<seq<Voice>, string>, synthesis: Option<string>,
               ifaces: Network.Interfaces, now: nat, lookup: Lookup): (r: Handled)
    ensures Missing(body.text) ==> r == Handled(Failure(AppError(400, "Missing text", true)), [])
    ensures !Missing(body.text) && voices.Failure? ==>
      r == Handled(Failure(AppError(500, "TTS failed: " + voices.error, true)), [])
    ensures !Missing(body.text) && voices.Success? && |voices.value| == 0 ==>
      r == Handled(Failure(AppError(500, "TTS failed: " + NoVoiceMessage, true)), [])
    ensures !Missing(body.text) && voices.Success? && |voices.value| > 0 && synthesis.Some? ==>
      r == Handled(Failure(AppError(500, "TTS failed: " + synthesis.value, true)), [])
    ensures r.outcome.Success? <==> !Missing(body.text) && voices.Success? && |voices.value| > 0 && synthesis.None?
    ensures r.outcome.Success? ==>
      && r.calls == Notify(Targets(body), lookup, TtsUrl(ifaces, now))
      && r.outcome.value == TtsAnswer(Targets(body), SelectVoice(voices.value, TtsLang(body)).value)
  {
    if Missing(body.text) then Handled(Failure(MakeAppError(400, "Missing text", None)), [])
    else if voices.Failure? then Handled(Failure(MakeAppError(500, "TTS failed: " + voices.error, None)), [])
    else
      match SelectVoice(voices.value, TtsLang(body))
      case None => Handled(Failure(MakeAppError(500, "TTS failed: " + NoVoiceMessage, None)), [])
      case Some(voice) =>
        if synthesis.Some? then Handled(Failure(MakeAppError(500, "TTS failed: " + synthesis.value, None)), [])
        else
          var targets := Targets(body);
          Handled(Success(TtsAnswer(targets, voice)), Notify(targets, lookup, TtsUrl(ifaces, now)))
  }

  function TtsAnswer(targets: seq<Value>, voice: Voice): Value {
    JObj(map[
      "success" := JBool(true),
      "message" := JStr("TTS sent to targets"),
      "targets" := JArr(targets),
      "voice" := JStr(voice.shortName)])
  }

  /** `lang || 'de-DE'`. */
  function TtsLang(body: Body): (r: string)
    ensures |r| > 0
    ensures !Missing(body.lang) ==> r == body.lang.value
  {
    if Missing(body.lang) then "de-DE" else body.lang.value
  }
}
