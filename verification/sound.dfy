/** The sound player's decisions: which audio source is active, and whether a
    play request reaches it. Audio elements themselves are not modelled. */
module Sound {

  import opened Wrappers

  /** An audio location: a remote asset address or an uploaded file's object URL. */
  type Uri = string

  datatype SoundPreset = SoundPreset(name: string, url: Uri)

  const SoundPresets: seq<SoundPreset> := [
    SoundPreset("Tick", "https://assets.mixkit.co/active_storage/sfx/2571/2571-preview.mp3"),
    SoundPreset("Bell", "https://assets.mixkit.co/active_storage/sfx/2568/2568-preview.mp3"),
    SoundPreset("Click", "https://assets.mixkit.co/active_storage/sfx/2570/2570-preview.mp3")
  ]

  /** The sound settings: the on/off switch, the chosen preset and an optional uploaded source. */
  datatype SoundConfig = SoundConfig(enabled: bool, preset: int, custom: Option<Uri>)

  const InitialConfig := SoundConfig(true, 0, None)

  predicate Valid(c: SoundConfig)
  {
    0 <= c.preset < |SoundPresets|
  }

  /** JavaScript's `customSound || url`: an uploaded source wins unless it is
      the empty string, which is falsy. */
  predicate HasCustom(c: SoundConfig)
  {
    c.custom.Some? && c.custom.value != ""
  }

  /** The source the audio element is built from. */
  function ActiveSource(c: SoundConfig): (u: Uri)
    requires Valid(c)
    ensures u in {SoundPresets[c.preset].url} + (if c.custom.Some? then {c.custom.value} else {})
    ensures u != SoundPresets[c.preset].url ==> HasCustom(c)
    ensures HasCustom(c) ==> u == c.custom.value
  {
    if HasCustom(c) then c.custom.value else SoundPresets[c.preset].url
  }

  /** The two ways to play: `playSound`, which honours the on/off switch and is
      used by the clock for both periodic and completion sounds, and
      `previewSound`, the settings panel's audition button, which does not. */
  datatype Trigger = PlaySound | PreviewSound

  /** The source a play request starts from the beginning, or None when the request is dropped. */
  function Play(c: SoundConfig, t: Trigger): (played: Option<Uri>)
    requires Valid(c)
    ensures played.Some? <==> (t == PreviewSound || c.enabled)
    ensures played.Some? ==> played.value == ActiveSource(c)
  {
    if t == PreviewSound || c.enabled then Some(ActiveSource(c)) else None
  }

  /** The speaker button flips the switch and touches nothing else. */
  function ToggleEnabled(c: SoundConfig): (r: SoundConfig)
    ensures r.enabled != c.enabled
    ensures r.(enabled := c.enabled) == c
  {
    c.(enabled := !c.enabled)
  }

  /** The sound drop-down, whose options are exactly the preset indices. */
  function SelectPreset(c: SoundConfig, i: int): (r: SoundConfig)
    requires 0 <= i < |SoundPresets|
    ensures Valid(r) && r.preset == i
    ensures r.(preset := c.preset) == c
  {
    c.(preset := i)
  }

  /** The file picker: a chosen file's object URL replaces the custom source; an empty pick changes nothing. */
  function UploadCustom(c: SoundConfig, file: Option<Uri>): (r: SoundConfig)
    ensures file.None? ==> r == c
    ensures file.Some? ==> r == c.(custom := file)
  {
    if file.Some? then c.(custom := file) else c
  }

  /** Once a non-empty custom source is set, choosing a preset does not change what is heard. */
  lemma CustomOverridesPreset(c: SoundConfig, i: int)
    requires Valid(c) && HasCustom(c)
    requires 0 <= i < |SoundPresets|
    ensures ActiveSource(SelectPreset(c, i)) == ActiveSource(c) == c.custom.value
  {
  }

  /** An upload takes effect immediately, whatever preset is selected. */
  lemma UploadBecomesActive(c: SoundConfig, u: Uri)
    requires Valid(c) && u != ""
    ensures ActiveSource(UploadCustom(c, Some(u))) == u
  {
  }

  /** Switching sound off silences the clock's requests but not the preview button. */
  lemma PreviewIgnoresSwitch(c: SoundConfig)
    requires Valid(c)
    ensures Play(c.(enabled := false), PlaySound) == None
    ensures Play(c.(enabled := false), PreviewSound) == Play(c.(enabled := true), PreviewSound) == Some(ActiveSource(c))
  {
  }

}
