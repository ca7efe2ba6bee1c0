/** The plugin-wide helper: the most recently opened project and its own
    copy of the locale-folder search. */
module I18nUtil {
  import opened Basics
  import opened Vfs
  import LocalesScanner

  /** The helper's state: the project last passed to `setProject`. */
  datatype Util = Util(currentProject: Option<Project>)

  const Initial: Util := Util(None)

  /** `setProject`: the given project becomes the current one. */
  function SetProject(u: Util, p: Project): (r: Util)
    ensures r.currentProject == Some(p)
  {
    Util(Some(p))
  }

  /** The search as `detectLocalePath` writes it out: a loop over the
      listing that returns at the first `locales` directory and recurses
      into the others. It finds what the scanner's search finds. */
  method ScanFiles(files: seq<File>, depth: int) returns (r: string)
    ensures r == LocalesScanner.Scan(files, depth)
    decreases files
  {
    if depth > LocalesScanner.MaxDepth {
      return "";
    }
    var i := 0;
    while i < |files|
      invariant 0 <= i <= |files|
      invariant LocalesScanner.Scan(files, depth) == LocalesScanner.Scan(files[i..], depth)
    {
      var f := files[i];
      assert files[i..][0] == f && files[i..][1..] == files[i + 1..];
      if f.name in LocalesScanner.ExcludedDirs || f.kind != Directory {
        i := i + 1;
        continue;
      }
      if f.name == LocalesScanner.LocalesName {
        return f.path;
      }
      var sub := "";
      if f.listable {
        sub := ScanFiles(f.children, depth + 1);
      }
      if sub != "" {
        return sub;
      }
      i := i + 1;
    }
    return "";
  }

  /** `detectLocalePath`: "" without a current project or without a base
      path; otherwise the same outcome as the scanner's detection for the
      current project, throwing when the base cannot be listed. */
  method DetectLocalePath(u: Util, disk: Disk) returns (r: Try<string>)
    ensures u.currentProject.None? ==> r == Ok("")
    ensures u.currentProject.Some? ==> r == LocalesScanner.DetectMultilingualFolder(u.currentProject.value, disk)
  {
    if u.currentProject.None? {
      return Ok("");
    }
    var project := u.currentProject.value;
    if project.basePath.None? {
      return Ok("");
    }
    var listing := disk(project.basePath.value);
    if listing.None? {
      return Throws;
    }
    var path := ScanFiles(listing.value, 1);
    return Ok(path);
  }

  /** Before any project is set the detection finds nothing. */
  method DetectBeforeSetProject(disk: Disk) returns (r: Try<string>)
    ensures r == Ok("")
  {
    r := DetectLocalePath(Initial, disk);
  }

  /** The detection follows the project set last. */
  method DetectAfterSetProject(u: Util, p: Project, disk: Disk) returns (r: Try<string>)
    ensures r == LocalesScanner.DetectMultilingualFolder(p, disk)
    ensures p.basePath.None? ==> r == Ok("")
  {
    r := DetectLocalePath(SetProject(u, p), disk);
  }
}
