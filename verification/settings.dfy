/** The persisted plugin settings: where the locales live, which language
    is previewed and which namespace is the default. */
module Settings {
  import opened Basics
  import opened Vfs
  import LocalesScanner

  datatype State = State(multilingualFolder: string, previewLanguage: string, defaultNamespace: string)

  /** The settings before anything is loaded or applied. */
  const DefaultState: State := State("", "", "translation")

  /** The settings component: the state it currently holds. */
  datatype Settings = Settings(state: State)

  /** The outcome of `verify`: the completed state and whether the
      "locales directory not found" warning is raised. */
  datatype Verified = Verified(state: State, warned: bool)

  /** `verify`: an empty folder is filled in by detection; the warning is
      raised exactly when the folder is still empty; a throwing detection
      makes `verify` throw. Language and namespace pass through. */
  function Verify(st: State, project: Project, disk: Disk): (r: Try<Verified>)
    ensures st.multilingualFolder != "" ==> r == Ok(Verified(st, false))
    ensures st.multilingualFolder == "" ==>
      match LocalesScanner.DetectMultilingualFolder(project, disk)
      case Throws => r.Throws?
      case Ok(found) => r.Ok? && r.value.state.multilingualFolder == found
    ensures r.Ok? ==> (r.value.warned <==> r.value.state.multilingualFolder == "")
    ensures r.Ok? ==>
      r.value.state.previewLanguage == st.previewLanguage && r.value.state.defaultNamespace == st.defaultNamespace
  {
    var folder :=
      if st.multilingualFolder != "" then Ok(st.multilingualFolder)
      else LocalesScanner.DetectMultilingualFolder(project, disk);
    match folder
    case Throws => Throws
    case Ok(f) => Ok(Verified(st.(multilingualFolder := f), f == ""))
  }

  /** Verifying a verified state changes nothing more. */
  lemma VerifyIdempotent(st: State, project: Project, disk: Disk)
    requires Verify(st, project, disk).Ok?
    ensures var v := Verify(st, project, disk).value;
      Verify(v.state, project, disk) == Ok(v)
  {
  }

  /** `loadState`: the component holds the verified form of the loaded
      state, and the warning is raised when its folder stays empty. A
      throwing detection propagates, and the held state stays as it was. */
  function LoadState(st: State, project: Project, disk: Disk): (r: Try<(Settings, bool)>)
    ensures r.Throws? <==>
      st.multilingualFolder == "" && LocalesScanner.DetectMultilingualFolder(project, disk).Throws?
    ensures st.multilingualFolder != "" ==> r == Ok((Settings(st), false))
    ensures r.Ok? ==> (r.value.1 <==> r.value.0.state.multilingualFolder == "")
    ensures r.Ok? && st.multilingualFolder == "" ==>
      r.value.0.state.multilingualFolder == LocalesScanner.DetectMultilingualFolder(project, disk).value
    ensures r.Ok? ==> r.value.0.state.previewLanguage == st.previewLanguage
    ensures r.Ok? ==> r.value.0.state.defaultNamespace == st.defaultNamespace
  {
    match Verify(st, project, disk)
    case Ok(v) => Ok((Settings(v.state), v.warned))
    case Throws => Throws
  }

  /** A loaded state is settled: verifying it again changes nothing and
      raises the warning exactly when loading did. */
  lemma LoadedStateSettled(st: State, project: Project, disk: Disk)
    requires LoadState(st, project, disk).Ok?
    ensures var (held, warned) := LoadState(st, project, disk).value;
      Verify(held.state, project, disk) == Ok(Verified(held.state, warned))
  {
    VerifyIdempotent(st, project, disk);
  }

  /** Loading the defaults holds the detected folder, no language and the
      `translation` namespace. */
  lemma LoadDefaults(project: Project, disk: Disk)
    requires LocalesScanner.DetectMultilingualFolder(project, disk).Ok?
    ensures var found := LocalesScanner.DetectMultilingualFolder(project, disk).value;
      LoadState(DefaultState, project, disk) == Ok((Settings(State(found, "", "translation")), found == ""))
  {
  }

  /** `apply`: the whole state is replaced, without verification. */
  function Apply(s: Settings, st: State): (r: Settings)
    ensures r.state == st
  {
    Settings(st)
  }

  /** Only loading fills in the folder: applying a state with an empty
      folder keeps it empty where loading the same state would hold the
      detected one. */
  lemma ApplySkipsDetection(s: Settings, st: State, project: Project, disk: Disk, found: string)
    requires st.multilingualFolder == ""
    requires LocalesScanner.DetectMultilingualFolder(project, disk) == Ok(found)
    ensures Apply(s, st).state.multilingualFolder == ""
    ensures LoadState(st, project, disk) == Ok((Settings(st.(multilingualFolder := found)), found == ""))
  {
  }
}
