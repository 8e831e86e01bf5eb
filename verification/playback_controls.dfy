/** The transport buttons: previous, next, play/pause and the volume steps.
    Each button sends one command to the backend; the transport state is an
    input whose value may be any polled JSON value or `undefined`. */
module PlaybackControls {
  import opened Wrappers
  import opened Json

  datatype Command = Previous | Next | Resume | Pause | AdjustVolume(delta: int)

  /** The input's default when the parent binds nothing. */
  const DefaultState: Option<Value> := Some(JStr("STOPPED"))

  /** The volume step of the two volume buttons. */
  const VolumeStep := 5

  /** `isPlayingOrBuffering`. */
  predicate IsPlayingOrBuffering(state: Option<Value>) {
    state == Some(JStr("PLAYING")) || state == Some(JStr("TRANSITIONING")) || state == Some(JStr("BUFFERING"))
  }

  /** `togglePlay`: one command, pause while playing or buffering, else resume. */
  function TogglePlay(state: Option<Value>): (c: Command)
    ensures c == Pause <==> IsPlayingOrBuffering(state)
    ensures c == Resume <==> !IsPlayingOrBuffering(state)
  {
    if IsPlayingOrBuffering(state) then Pause else Resume
  }

  /** Only the three string states count as playing; any other string, a
      non-string value or `undefined` resumes. */
  lemma ToggleResumesOtherwise(state: Option<Value>)
    requires state.None? || !state.value.JStr? ||
      (state.value.s != "PLAYING" && state.value.s != "TRANSITIONING" && state.value.s != "BUFFERING")
    ensures TogglePlay(state) == Resume
  {
  }

  /** With the default state the toggle resumes. */
  lemma DefaultResumes()
    ensures TogglePlay(DefaultState) == Resume
  {
  }

  function VolumeUp(): (c: Command)
    ensures c.AdjustVolume? && c.delta > 0
    ensures c == AdjustVolume(5)
  {
    AdjustVolume(VolumeStep)
  }

  function VolumeDown(): (c: Command)
    ensures c.AdjustVolume? && c.delta < 0
    ensures c == AdjustVolume(-5)
  {
    AdjustVolume(-VolumeStep)
  }

  /** A step up and a step down cancel, each by five. */
  lemma VolumeStepsCancel()
    ensures VolumeUp().delta + VolumeDown().delta == 0
    ensures VolumeUp().delta == 5
  {
  }
}
