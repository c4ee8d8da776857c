/**
 The editor page's local helpers: dragging the output panel, choosing the Judge0
 language id, choosing what the output panel shows, resolving the saved editor
 theme, and guarding the chat send button.
 */
module EditorPanel {
  import opened Values
  import opened Text

  // ----- output panel height -----

  const MinOutputHeight := 80
  const MaxOutputHeight := 500

  /** The panel height while dragging: the start height minus the mouse travel, clamped. */
  function DraggedHeight(startHeight: int, deltaY: int): (h: int)
    ensures MinOutputHeight <= h <= MaxOutputHeight
    ensures MinOutputHeight <= startHeight - deltaY <= MaxOutputHeight ==> h == startHeight - deltaY
    ensures startHeight - deltaY < MinOutputHeight ==> h == MinOutputHeight
    ensures startHeight - deltaY > MaxOutputHeight ==> h == MaxOutputHeight
  {
    var raised := if startHeight - deltaY > MinOutputHeight then startHeight - deltaY else MinOutputHeight;
    if raised < MaxOutputHeight then raised else MaxOutputHeight
  }

  /** Dragging further up never makes the panel shorter. */
  lemma DraggedHeightMonotone(startHeight: int, d1: int, d2: int)
    requires d1 <= d2
    ensures DraggedHeight(startHeight, d2) <= DraggedHeight(startHeight, d1)
  {
  }

  // ----- language id -----

  const DefaultLanguageId := 63

  /** Judge0 language ids of the languages the page knows. */
  const LanguageMap: map<string, int> :=
    map["javascript" := 63, "typescript" := 74, "python" := 71, "java" := 62, "cpp" := 54]

  /** `languageMap[selectedLanguage] || 63`. */
  function LanguageId(selectedLanguage: string): (id: int)
    ensures selectedLanguage in LanguageMap ==> id == LanguageMap[selectedLanguage]
    ensures selectedLanguage !in LanguageMap ==> id == DefaultLanguageId
    ensures id in LanguageMap.Values
  {
    if selectedLanguage in LanguageMap && LanguageMap[selectedLanguage] != 0 then
      LanguageMap[selectedLanguage]
    else
      assert LanguageMap["javascript"] == DefaultLanguageId;
      DefaultLanguageId
  }

  /** The default id is JavaScript's: any other known language gets a different one. */
  lemma DefaultIdMeansJavaScriptOrUnknown(selectedLanguage: string)
    ensures LanguageId(selectedLanguage) == DefaultLanguageId
      <==> selectedLanguage == "javascript" || selectedLanguage !in LanguageMap
  {
  }

  // ----- run output -----

  /** The fields of a Judge0 submission reply the page reads. */
  datatype Judge0Reply = Judge0Reply(stdout: Option<string>, stderr: Option<string>, compileOutput: Option<string>)

  /** How the submission request ended. */
  datatype RunOutcome = RunFailed | RunReturned(reply: Judge0Reply)

  const NoOutput := "No output"
  const RunError := "Error running code. Check console."

  /** What the output panel shows once a run finishes. */
  function RunOutput(o: RunOutcome): (out: string)
    ensures out != ""
    ensures o.RunFailed? ==> out == RunError
    ensures o.RunReturned? && Truthy(o.reply.stdout) ==> out == o.reply.stdout.value
    ensures o.RunReturned? && !Truthy(o.reply.stdout) && Truthy(o.reply.stderr) ==> out == o.reply.stderr.value
    ensures o.RunReturned? && !Truthy(o.reply.stdout) && !Truthy(o.reply.stderr) && Truthy(o.reply.compileOutput)
      ==> out == o.reply.compileOutput.value
    ensures o.RunReturned? && !Truthy(o.reply.stdout) && !Truthy(o.reply.stderr) && !Truthy(o.reply.compileOutput)
      ==> out == NoOutput
  {
    match o
    case RunFailed => RunError
    case RunReturned(r) =>
      OrDefault(r.stdout, OrDefault(r.stderr, OrDefault(r.compileOutput, NoOutput)))
  }

  /** A successful run shows one of the reply's fields, or "No output" when all are empty. */
  lemma RunOutputComesFromReply(r: Judge0Reply)
    ensures var out := RunOutput(RunReturned(r));
      || (Truthy(r.stdout) && out == r.stdout.value)
      || (Truthy(r.stderr) && out == r.stderr.value)
      || (Truthy(r.compileOutput) && out == r.compileOutput.value)
      || out == NoOutput
  {
  }

  // ----- editor theme -----

  const DefaultTheme := "vs-dark"
  const SupportedThemes: seq<string> := ["vs-dark", "vs", "hc-black", "monokai", "github-dark", "dracula"]

  /** The theme the page settles on and what, if anything, it writes back to storage. */
  datatype ThemeLoad = ThemeLoad(theme: string, writeBack: Option<string>)

  /**
   Resolving the theme saved in storage: a supported theme is kept, a missing or
   empty one falls back silently, and an unsupported one is replaced by the
   default, which is also written back.
   */
  function LoadSavedTheme(stored: Option<string>): (t: ThemeLoad)
    ensures t.theme in SupportedThemes
    ensures Truthy(stored) && stored.value in SupportedThemes ==> t.theme == stored.value
    ensures !(Truthy(stored) && stored.value in SupportedThemes) ==> t.theme == DefaultTheme
    ensures t.writeBack.Some? <==> Truthy(stored) && stored.value !in SupportedThemes
    ensures t.writeBack.Some? ==> t.writeBack.value == DefaultTheme
  {
    var saved := OrDefault(stored, DefaultTheme);
    assert DefaultTheme == SupportedThemes[0];
    if saved in SupportedThemes then ThemeLoad(saved, None)
    else ThemeLoad(DefaultTheme, Some(DefaultTheme))
  }

  /** A `storage` event seen by the page: the changed key and its new value. */
  datatype StorageEvent = StorageEvent(key: Option<string>, newValue: Option<string>)

  /** The theme after a storage event: only a supported new `editorTheme` value is taken. */
  function OnStorageChange(theme: string, e: StorageEvent): (t: string)
    ensures t != theme ==> e.key == Some("editorTheme") && e.newValue == Some(t)
    ensures t != theme ==> t in SupportedThemes
    ensures e.key == Some("editorTheme") && Truthy(e.newValue) && e.newValue.value in SupportedThemes
      ==> t == e.newValue.value
  {
    if e.key == Some("editorTheme") && Truthy(e.newValue) && e.newValue.value in SupportedThemes then
      e.newValue.value
    else
      theme
  }

  /** The theme after loading and then a series of storage events. */
  function ThemeAfter(stored: Option<string>, events: seq<StorageEvent>): string
    decreases |events|
  {
    if |events| == 0 then LoadSavedTheme(stored).theme
    else OnStorageChange(ThemeAfter(stored, events[..|events| - 1]), events[|events| - 1])
  }

  /** Whatever storage does, the editor theme is always a supported one. */
  lemma {:induction false} ThemeAlwaysSupported(stored: Option<string>, events: seq<StorageEvent>)
    ensures ThemeAfter(stored, events) in SupportedThemes
    decreases |events|
  {
    if |events| > 0 {
      ThemeAlwaysSupported(stored, events[..|events| - 1]);
    }
  }

  // ----- chat send guard -----

  /** What pressing send does: the message emitted, if any, and the draft left behind. */
  datatype ChatSend = ChatSend(sent: Option<string>, draft: string)

  /** A blank draft is neither sent nor cleared; any other draft is sent as typed and cleared. */
  function SendMessage(draft: string): (r: ChatSend)
    ensures r.sent.None? <==> AllWhitespace(draft)
    ensures r.sent.None? ==> r.draft == draft
    ensures r.sent.Some? ==> r.sent.value == draft && r.draft == ""
  {
    if Trim(draft) == [] then ChatSend(None, draft) else ChatSend(Some(draft), "")
  }
}
