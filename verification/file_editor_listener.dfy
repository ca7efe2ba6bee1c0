/** Editor bookkeeping: a caret listener per opened JavaScript/TypeScript
    file, and the rule that opens the translation fold under the caret. */
module FileEditorListener {
  import opened Basics
  import opened Strings
  import opened Vfs

  /** The language of a file's PSI: whether it is a kind of JavaScript, and
      its display name. */
  datatype Language = Language(isKindOfJavaScript: bool, displayName: string)

  /** `isJavaScriptOrTypeScriptFile`. */
  predicate IsJavaScriptOrTypeScript(l: Language) {
    var name := ToLower(l.displayName);
    l.isKindOfJavaScript || Contains(name, "typescript") || Contains(name, "javascript")
  }

  /** Editors and caret listeners are identified by numbers. */
  type EditorId = nat
  type ListenerId = nat

  /** The listener's state: the caret listener recorded for each file path,
      and which listeners are attached to which editors. */
  datatype Listeners = Listeners(caretListeners: map<string, ListenerId>, attached: set<(EditorId, ListenerId)>)

  const Initial: Listeners := Listeners(map[], {})

  /** `fileOpened`: for a JavaScript/TypeScript file, when a text editor is
      selected, a new caret listener is attached to that editor and
      recorded for the file, replacing any earlier record. A file without
      a PSI file makes the `!!` throw. */
  function FileOpened(st: Listeners, file: VFile, language: Option<Language>,
                      selected: Option<EditorId>, newListener: ListenerId): (r: Try<Listeners>)
    ensures r.Throws? <==> language.None?
    ensures r.Ok? && (!IsJavaScriptOrTypeScript(language.value) || selected.None?) ==> r.value == st
    ensures r.Ok? && IsJavaScriptOrTypeScript(language.value) && selected.Some? ==>
      r.value.caretListeners == st.caretListeners[file.path := newListener]
      && r.value.attached == st.attached + {(selected.value, newListener)}
  {
    match language
    case None => Throws
    case Some(l) =>
      if !IsJavaScriptOrTypeScript(l) then Ok(st)
      else match selected
        case None => Ok(st)
        case Some(e) => Ok(Listeners(st.caretListeners[file.path := newListener], st.attached + {(e, newListener)}))
  }

  /** `fileClosed` as written: the file's record is always removed, but
      the listener stays attached. The editor it checks is the file's
      selected `FileEditor`, which is never an `Editor`, so the detach
      branch never runs. */
  function FileClosed(st: Listeners, file: VFile): (r: Listeners)
    ensures file.path !in r.caretListeners
    ensures forall p :: p in st.caretListeners && p != file.path ==>
      p in r.caretListeners && r.caretListeners[p] == st.caretListeners[p]
    ensures r.caretListeners.Keys == st.caretListeners.Keys - {file.path}
    ensures r.attached == st.attached
  {
    Listeners(st.caretListeners - {file.path}, st.attached)
  }

  /** `fileClosed` as evidently intended: the recorded listener is also
      detached from the file's text editor, when it has one. */
  function FileClosedDetaching(st: Listeners, file: VFile, editor: Option<EditorId>): (r: Listeners)
    ensures file.path !in r.caretListeners
    ensures forall p :: p in st.caretListeners && p != file.path ==>
      p in r.caretListeners && r.caretListeners[p] == st.caretListeners[p]
    ensures r.caretListeners.Keys == st.caretListeners.Keys - {file.path}
    ensures r.attached <= st.attached
    ensures file.path in st.caretListeners && editor.Some? ==>
      r.attached == st.attached - {(editor.value, st.caretListeners[file.path])}
    ensures file.path !in st.caretListeners || editor.None? ==> r.attached == st.attached
  {
    var attached :=
      if file.path in st.caretListeners && editor.Some?
      then st.attached - {(editor.value, st.caretListeners[file.path])}
      else st.attached;
    Listeners(st.caretListeners - {file.path}, attached)
  }

  /** As written, opening a JavaScript file and closing it again leaves
      the new caret listener attached to the editor. */
  lemma ClosedListenerStaysAttached(file: VFile, l: Language, e: EditorId, listener: ListenerId)
    requires IsJavaScriptOrTypeScript(l)
    ensures var afterOpen := FileOpened(Initial, file, Some(l), Some(e), listener);
      afterOpen.Ok? && FileClosed(afterOpen.value, file) == Listeners(map[], {(e, listener)})
  {
  }

  /** As intended, closing a file in the editor it was opened in undoes the
      opening: no record for the file, the other files' records as before,
      and the attached listeners as before when the new listener was fresh. */
  lemma OpenThenCloseRestores(st: Listeners, file: VFile, l: Language, e: EditorId, listener: ListenerId)
    requires IsJavaScriptOrTypeScript(l)
    requires forall x :: x in st.attached ==> x.1 != listener
    ensures var afterOpen := FileOpened(st, file, Some(l), Some(e), listener);
      afterOpen.Ok? &&
      var closed := FileClosedDetaching(afterOpen.value, file, Some(e));
      closed.caretListeners == st.caretListeners - {file.path} && closed.attached == st.attached
  {
  }

  /** The caret rule for one region: a translation region is expanded
      exactly when the caret lies within it, both ends included. */
  function OnCaret(g: Region, offset: int): Region {
    if IsTranslationRegion(g) then g.(expanded := g.start <= offset <= g.end) else g
  }

  /** `caretPositionChanged`: with no caret nothing changes. */
  function CaretMoved(regions: seq<Region>, caret: Option<int>): (r: seq<Region>)
    ensures |r| == |regions|
    ensures caret.None? ==> r == regions
    ensures forall i :: 0 <= i < |regions| && !IsTranslationRegion(regions[i]) ==> r[i] == regions[i]
    ensures forall i :: 0 <= i < |regions| && IsTranslationRegion(regions[i]) && caret.Some? ==>
      r[i].start == regions[i].start && r[i].end == regions[i].end && r[i].group == regions[i].group
      && (r[i].expanded <==> regions[i].start <= caret.value <= regions[i].end)
  {
    if caret.None? || |regions| == 0 then regions
    else [OnCaret(regions[0], caret.value)] + CaretMoved(regions[1..], caret)
  }

  /** The caret rule looks only at the caret and the regions: applying it
      twice for the same caret changes nothing the second time. */
  lemma {:induction false} CaretMovedIdempotent(regions: seq<Region>, caret: Option<int>)
    ensures CaretMoved(CaretMoved(regions, caret), caret) == CaretMoved(regions, caret)
  {
    if caret.Some? && |regions| > 0 {
      CaretMovedIdempotent(regions[1..], caret);
      assert OnCaret(regions[0], caret.value).group == regions[0].group;
    }
  }
}
