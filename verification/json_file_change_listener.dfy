/** Reloading a namespace in the worker when its translation file changes. */
module JsonFileChangeListener {
  import opened Basics
  import opened Strings
  import opened Vfs
  import TranslationService
  import FoldingReloader

  /** A file event of the editor: a content change of a file, or any other
      kind of event. */
  datatype Event = ContentChange(file: VFile) | OtherChange(file: VFile)

  /** The files whose content changed, in event order. */
  function ChangedFiles(events: seq<Event>): (r: seq<VFile>)
    ensures forall f :: f in r <==> ContentChange(f) in events
  {
    if |events| == 0 then []
    else
      (if events[0].ContentChange? then [events[0].file] else []) + ChangedFiles(events[1..])
  }

  /** Events are taken one by one: the files of two runs of events are
      the first run's files followed by the second's. */
  lemma {:induction false} ChangedFilesAppend(a: seq<Event>, b: seq<Event>)
    ensures ChangedFiles(a + b) == ChangedFiles(a) + ChangedFiles(b)
  {
    if |a| == 0 {
      assert a + b == b;
    } else {
      assert (a + b)[0] == a[0];
      assert (a + b)[1..] == a[1..] + b;
      ChangedFilesAppend(a[1..], b);
      var head := if a[0].ContentChange? then [a[0].file] else [];
      assert ChangedFiles(a + b) == head + ChangedFiles(a[1..] + b);
      assert ChangedFiles(a) == head + ChangedFiles(a[1..]);
    }
  }

  predicate IsJson(f: VFile) {
    Extension(f.name) == "json"
  }

  /** The namespace files of the previewed language among the changed
      files: JSON files whose parent directory is named after the language.
      Reading the parent of a root file throws. */
  function Namespaces(files: seq<VFile>, lang: string): Try<seq<string>> {
    if |files| == 0 then Ok([])
    else
      var f := files[0];
      if !IsJson(f) then Namespaces(files[1..], lang)
      else if f.parent.None? then Throws
      else
        match Namespaces(files[1..], lang)
        case Throws => Throws
        case Ok(nss) => Ok((if f.parent == Some(lang) then [NameWithoutExtension(f.name)] else []) + nss)
  }

  /** The batch throws exactly when one of the changed JSON files has no parent. */
  lemma {:induction false} NamespacesThrow(files: seq<VFile>, lang: string)
    ensures Namespaces(files, lang).Throws? <==> exists f :: f in files && IsJson(f) && f.parent.None?
  {
    if |files| > 0 {
      NamespacesThrow(files[1..], lang);
      assert forall g :: g in files <==> g == files[0] || g in files[1..];
    }
  }

  /** Otherwise the namespaces are the stems of the changed JSON files in
      the previewed language's directory. */
  lemma {:induction false} NamespacesSelected(files: seq<VFile>, lang: string)
    requires Namespaces(files, lang).Ok?
    ensures forall ns :: ns in Namespaces(files, lang).value <==>
      exists f :: f in files && IsJson(f) && f.parent == Some(lang) && ns == NameWithoutExtension(f.name)
  {
    if |files| > 0 {
      NamespacesSelected(files[1..], lang);
      assert forall g :: g in files <==> g == files[0] || g in files[1..];
    }
  }

  /** Files are taken one by one: one namespace per selected file, in file
      order, duplicates kept. */
  lemma {:induction false} NamespacesAppend(a: seq<VFile>, b: seq<VFile>, lang: string)
    requires Namespaces(a, lang).Ok? && Namespaces(b, lang).Ok?
    ensures Namespaces(a + b, lang) == Ok(Namespaces(a, lang).value + Namespaces(b, lang).value)
  {
    if |a| == 0 {
      assert a + b == b;
      assert Namespaces(a, lang).value == [];
      assert Namespaces(a, lang).value + Namespaces(b, lang).value == Namespaces(b, lang).value;
    } else {
      assert (a + b)[0] == a[0];
      assert (a + b)[1..] == a[1..] + b;
      NamespacesAppend(a[1..], b, lang);
      var pre := if a[0].parent == Some(lang) then [NameWithoutExtension(a[0].name)] else [];
      var x := Namespaces(a[1..], lang).value;
      var y := Namespaces(b, lang).value;
      assert pre + (x + y) == (pre + x) + y;
    }
  }

  /** Sends `reload` for each namespace in turn; `clock(i)` is the time of
      the i-th send. */
  function ReloadAll(s: TranslationService.Service, nss: seq<string>, clock: nat -> int, i: nat): (r: TranslationService.Service)
    ensures r.process == s.process && r.queue == s.queue
    ensures s.process.None? ==> r.sent == s.sent
    ensures s.process.Some? ==> |r.sent| == |s.sent| + |nss| && r.sent[..|s.sent|] == s.sent
    ensures s.process.Some? ==> forall k :: 0 <= k < |nss| ==>
      r.sent[|s.sent| + k] == TranslationService.Command("reload", [Str(nss[k])], clock(i + k))
    decreases |nss|
  {
    if |nss| == 0 then s
    else
      var s' := TranslationService.Invoke(s, "reload", [Str(nss[0])], clock(i)).0;
      var r := ReloadAll(s', nss[1..], clock, i + 1);
      assert s.process.Some? ==> forall k :: 1 <= k < |nss| ==>
        r.sent[|s.sent| + k] == r.sent[|s'.sent| + (k - 1)] && nss[k] == nss[1..][k - 1];
      r
  }

  /** Sending two lists of reloads in turn is sending their concatenation. */
  lemma {:induction false} ReloadAllAppend(s: TranslationService.Service, x: seq<string>, y: seq<string>,
                                           clock: nat -> int, i: nat)
    ensures ReloadAll(s, x + y, clock, i) == ReloadAll(ReloadAll(s, x, clock, i), y, clock, i + |x|)
    decreases |x|
  {
    if |x| == 0 {
      assert x + y == y;
    } else {
      assert (x + y)[0] == x[0];
      assert (x + y)[1..] == x[1..] + y;
      ReloadAllAppend(TranslationService.Invoke(s, "reload", [Str(x[0])], clock(i)).0, x[1..], y, clock, i + 1);
    }
  }

  /** `after`: one `reload` per changed namespace file of the previewed
      language, each followed by a refresh request. If reading a parent
      throws, the whole batch is abandoned before anything is sent. */
  function After(s: TranslationService.Service, reloader: FoldingReloader.Reloader, events: seq<Event>,
                 previewLanguage: string, clock: nat -> int): (r: Try<(TranslationService.Service, FoldingReloader.Reloader)>)
    ensures r.Ok? <==> Namespaces(ChangedFiles(events), previewLanguage).Ok?
    ensures r.Throws? <==> exists f :: ContentChange(f) in events && IsJson(f) && f.parent.None?
    ensures r.Ok? ==> forall ns :: ns in Namespaces(ChangedFiles(events), previewLanguage).value <==>
      exists f :: ContentChange(f) in events && IsJson(f) && f.parent == Some(previewLanguage) && ns == NameWithoutExtension(f.name)
    ensures r.Ok? ==>
      var nss := Namespaces(ChangedFiles(events), previewLanguage).value;
      r.value.0 == ReloadAll(s, nss, clock, 0)
      && (|nss| == 0 ==> r.value.1 == reloader)
      && (|nss| > 0 ==> r.value.1.pending == [FoldingReloader.DefaultDelayMs])
  {
    NamespacesThrow(ChangedFiles(events), previewLanguage);
    match Namespaces(ChangedFiles(events), previewLanguage)
    case Throws => Throws
    case Ok(nss) =>
      NamespacesSelected(ChangedFiles(events), previewLanguage);
      var delays := seq(|nss|, _ => FoldingReloader.DefaultDelayMs);
      if |nss| == 0 then Ok((ReloadAll(s, nss, clock, 0), FoldingReloader.ScheduleAll(reloader, delays)))
      else
        FoldingReloader.RequestsCoalesce(reloader, delays);
        Ok((ReloadAll(s, nss, clock, 0), FoldingReloader.ScheduleAll(reloader, delays)))
  }

  /** A batch is handled in event order: the reloads for a batch are those
      for its first part, followed by those for the rest. */
  lemma AfterInEventOrder(s: TranslationService.Service, reloader: FoldingReloader.Reloader,
                          a: seq<Event>, b: seq<Event>, previewLanguage: string, clock: nat -> int)
    requires After(s, reloader, a + b, previewLanguage, clock).Ok?
    ensures After(s, reloader, a, previewLanguage, clock).Ok?
    ensures Namespaces(ChangedFiles(b), previewLanguage).Ok?
    ensures After(s, reloader, a + b, previewLanguage, clock).value.0 ==
      ReloadAll(After(s, reloader, a, previewLanguage, clock).value.0,
                Namespaces(ChangedFiles(b), previewLanguage).value, clock,
                |Namespaces(ChangedFiles(a), previewLanguage).value|)
  {
    ChangedFilesAppend(a, b);
    var fa := ChangedFiles(a);
    var fb := ChangedFiles(b);
    NamespacesThrow(fa + fb, previewLanguage);
    NamespacesThrow(fa, previewLanguage);
    NamespacesThrow(fb, previewLanguage);
    NamespacesAppend(fa, fb, previewLanguage);
    ReloadAllAppend(s, Namespaces(fa, previewLanguage).value, Namespaces(fb, previewLanguage).value, clock, 0);
  }
}
