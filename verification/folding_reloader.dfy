/** The debounced refresh of translation folds in the open editors. */
module FoldingReloader {
  import opened Basics
  import opened Strings
  import opened Vfs

  /** The delay `scheduleReload` uses unless told otherwise, in milliseconds. */
  const DefaultDelayMs: nat := 100

  /** The alarm's queue: the delays of the reload requests not yet run. */
  datatype Reloader = Reloader(pending: seq<nat>)

  const Idle: Reloader := Reloader([])

  /** `scheduleReload`: every pending request is cancelled, then one is added. */
  function ScheduleReload(r: Reloader, delayMs: nat): (r': Reloader)
    ensures |r'.pending| == 1 && r'.pending[0] == delayMs
  {
    Reloader([delayMs])
  }

  /** Several requests in a row, each after the previous. */
  function ScheduleAll(r: Reloader, delays: seq<nat>): Reloader
    decreases |delays|
  {
    if |delays| == 0 then r else ScheduleAll(ScheduleReload(r, delays[0]), delays[1..])
  }

  /** Rapid requests coalesce: after any non-empty run of them exactly one
      is pending, and it is the last one. */
  lemma {:induction false} RequestsCoalesce(r: Reloader, delays: seq<nat>)
    requires |delays| > 0
    ensures ScheduleAll(r, delays).pending == [delays[|delays| - 1]]
    decreases |delays|
  {
    if |delays| > 1 {
      RequestsCoalesce(ScheduleReload(r, delays[0]), delays[1..]);
    }
  }

  /** An open file: its virtual file and, when its selected editor is a
      text editor, the fold regions of that editor. */
  datatype OpenFile = OpenFile(file: VFile, regions: Option<seq<Region>>)

  /** The extensions whose editors are refreshed. */
  const TargetExtensions: set<string> := {"js", "jsx", "ts", "tsx"}

  predicate IsTarget(f: OpenFile) {
    Extension(f.file.name) in TargetExtensions && f.regions.Some?
  }

  /** A translation region is expanded and collapsed again, which leaves it
      collapsed; any other region is left alone. */
  function Refold(g: Region): (h: Region)
    ensures IsTranslationRegion(g) ==> h == g.(expanded := false)
    ensures !IsTranslationRegion(g) ==> h == g
  {
    if IsTranslationRegion(g) then g.(expanded := true).(expanded := false) else g
  }

  function RefoldAll(rs: seq<Region>): (out: seq<Region>)
    ensures |out| == |rs|
    ensures forall i :: 0 <= i < |rs| ==> out[i] == Refold(rs[i])
  {
    if |rs| == 0 then [] else [Refold(rs[0])] + RefoldAll(rs[1..])
  }

  /** `reloadNow`: in the open js/jsx/ts/tsx files that show a text editor,
      every translation region ends collapsed; nothing else changes. */
  function ReloadNow(files: seq<OpenFile>): (out: seq<OpenFile>)
    ensures |out| == |files|
    ensures forall i :: 0 <= i < |files| ==> out[i].file == files[i].file
    ensures forall i :: 0 <= i < |files| && !IsTarget(files[i]) ==> out[i] == files[i]
    ensures forall i :: 0 <= i < |files| && IsTarget(files[i]) ==>
      out[i].regions.Some? && |out[i].regions.value| == |files[i].regions.value| &&
      forall j :: 0 <= j < |files[i].regions.value| ==>
        var g := files[i].regions.value[j];
        out[i].regions.value[j] == if IsTranslationRegion(g) then g.(expanded := false) else g
  {
    if |files| == 0 then []
    else
      var f := files[0];
      var f' := if IsTarget(f) then f.(regions := Some(RefoldAll(f.regions.value))) else f;
      [f'] + ReloadNow(files[1..])
  }

  /** The alarm going off: the oldest pending request runs `reloadNow`;
      with nothing pending nothing happens. */
  function Fire(r: Reloader, files: seq<OpenFile>): (out: (Reloader, seq<OpenFile>))
    ensures |r.pending| == 0 ==> out == (r, files)
    ensures |r.pending| > 0 ==> out == (Reloader(r.pending[1..]), ReloadNow(files))
  {
    if |r.pending| == 0 then (r, files) else (Reloader(r.pending[1..]), ReloadNow(files))
  }

  /** However many requests were made, the refresh runs once: after the
      alarm goes off nothing is pending, and going off again changes nothing. */
  lemma RefreshRunsOnce(r: Reloader, delays: seq<nat>, files: seq<OpenFile>)
    requires |delays| > 0
    ensures var (r1, f1) := Fire(ScheduleAll(r, delays), files);
      r1 == Idle && f1 == ReloadNow(files) && Fire(r1, f1) == (r1, f1)
  {
    RequestsCoalesce(r, delays);
  }
}
