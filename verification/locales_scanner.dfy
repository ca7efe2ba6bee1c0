/** The search for a project's locale folder and the listings of languages
    and namespaces inside it. */
module LocalesScanner {
  import opened Basics
  import opened Strings
  import opened Vfs

  /** Directory names the search never enters. */
  const ExcludedDirs: set<string> := {"node_modules", ".git", "dist", "out", "build"}

  /** The name of the folder the search looks for. */
  const LocalesName: string := "locales"

  /** The deepest level searched; the base's own children are level 1. */
  const MaxDepth: int := 5

  /** An entry the search may look at: a directory whose name is not excluded. */
  predicate Eligible(f: File) {
    f.name !in ExcludedDirs && f.kind == Directory
  }

  /** The depth-first search of `files` at level `depth`: the path of the
      first eligible directory named `locales`, looking into each other
      eligible directory before its next sibling; "" when there is none
      or the level is past the bound. */
  function Scan(files: seq<File>, depth: int): string
    decreases files
  {
    if depth > MaxDepth || |files| == 0 then ""
    else
      var f := files[0];
      if !Eligible(f) then Scan(files[1..], depth)
      else if f.name == LocalesName then f.path
      else
        var r := if f.listable then Scan(f.children, depth + 1) else "";
        if r != "" then r else Scan(files[1..], depth)
  }

  /** `p` is the path of an eligible `locales` directory reachable from
      `files` at level `depth` through eligible directories not named
      `locales`, within the depth bound. */
  ghost predicate Reaches(files: seq<File>, depth: int, p: string)
    decreases files
  {
    depth <= MaxDepth && |files| > 0 &&
    ((Eligible(files[0]) && files[0].name == LocalesName && files[0].path == p)
     || (Eligible(files[0]) && files[0].name != LocalesName && files[0].listable
         && Reaches(files[0].children, depth + 1, p))
     || Reaches(files[1..], depth, p))
  }

  /** Whatever the search returns, other than "", is a reachable `locales` folder. */
  lemma {:induction false} ScanSound(files: seq<File>, depth: int)
    ensures Scan(files, depth) != "" ==> Reaches(files, depth, Scan(files, depth))
    decreases files
  {
    if depth <= MaxDepth && |files| > 0 {
      var f := files[0];
      ScanSound(files[1..], depth);
      if Eligible(f) && f.name != LocalesName && f.listable {
        ScanSound(f.children, depth + 1);
      }
    }
  }

  /** Every entry of the tree has a non-empty path, as absolute paths do. */
  ghost predicate AbsolutePaths(files: seq<File>)
    decreases files
  {
    forall i :: 0 <= i < |files| ==> files[i].path != "" && AbsolutePaths(files[i].children)
  }

  lemma AbsolutePathsParts(files: seq<File>)
    requires AbsolutePaths(files) && |files| > 0
    ensures files[0].path != "" && AbsolutePaths(files[0].children) && AbsolutePaths(files[1..])
  {
    assert forall i :: 0 <= i < |files[1..]| ==> files[1..][i] == files[i + 1];
  }

  /** When the tree holds a reachable `locales` folder, the search finds one. */
  lemma {:induction false} ScanComplete(files: seq<File>, depth: int, p: string)
    requires AbsolutePaths(files)
    requires Reaches(files, depth, p)
    ensures Scan(files, depth) != ""
    decreases files
  {
    var f := files[0];
    AbsolutePathsParts(files);
    if Eligible(f) && f.name == LocalesName {
    } else if Eligible(f) && f.listable && Reaches(f.children, depth + 1, p) {
      ScanComplete(f.children, depth + 1, p);
    } else {
      ScanComplete(files[1..], depth, p);
    }
  }

  /** Listing order decides: the earlier part of a listing, subtrees
      included, is searched completely before the later part. */
  lemma {:induction false} ScanConcat(a: seq<File>, b: seq<File>, depth: int)
    requires AbsolutePaths(a)
    ensures Scan(a + b, depth) == if Scan(a, depth) != "" then Scan(a, depth) else Scan(b, depth)
    decreases a
  {
    if depth <= MaxDepth {
      if |a| == 0 {
        assert a + b == b;
      } else {
        var f := a[0];
        AbsolutePathsParts(a);
        assert (a + b)[0] == f;
        assert (a + b)[1..] == a[1..] + b;
        ScanConcat(a[1..], b, depth);
        if Eligible(f) && f.name != LocalesName {
          var r := if f.listable then Scan(f.children, depth + 1) else "";
          assert Scan(a, depth) == if r != "" then r else Scan(a[1..], depth);
          assert Scan(a + b, depth) == if r != "" then r else Scan(a[1..] + b, depth);
        }
      }
    }
  }

  /** The tree with every entry the search may not look at removed, at all levels. */
  function Prune(files: seq<File>): (r: seq<File>)
    ensures forall i :: 0 <= i < |r| ==> Eligible(r[i])
    decreases files
  {
    if |files| == 0 then []
    else if Eligible(files[0]) then [files[0].(children := Prune(files[0].children))] + Prune(files[1..])
    else Prune(files[1..])
  }

  /** Excluded directories and non-directories are never entered: removing
      them from the tree does not change what the search returns. */
  lemma {:induction false} ScanIgnoresIneligible(files: seq<File>, depth: int)
    ensures Scan(Prune(files), depth) == Scan(files, depth)
    decreases files
  {
    if depth <= MaxDepth && |files| > 0 {
      var f := files[0];
      ScanIgnoresIneligible(files[1..], depth);
      if Eligible(f) {
        ScanIgnoresIneligible(f.children, depth + 1);
        var g := f.(children := Prune(f.children));
        assert Prune(files) == [g] + Prune(files[1..]);
        assert ([g] + Prune(files[1..]))[1..] == Prune(files[1..]);
      }
    }
  }

  /** `detectMultilingualFolder`: "" for a project without a base path; the
      search from the base's listing otherwise, which throws when that
      listing is null. */
  function DetectMultilingualFolder(project: Project, disk: Disk): (r: Try<string>)
    ensures project.basePath.None? ==> r == Ok("")
    ensures r.Throws? <==> project.basePath.Some? && disk(project.basePath.value).None?
    ensures r.Ok? && r.value != "" ==>
      Reaches(disk(project.basePath.value).value, 1, r.value)
  {
    match project.basePath
    case None => Ok("")
    case Some(base) =>
      match disk(base)
      case None => Throws
      case Some(files) =>
        ScanSound(files, 1);
        Ok(Scan(files, 1))
  }

  /** The names of the directories among `files`, in listing order. */
  function DirectoryNames(files: seq<File>): (r: seq<string>)
    ensures |r| <= |files|
    ensures forall n :: n in r <==> exists i :: 0 <= i < |files| && files[i].kind == Directory && files[i].name == n
  {
    if |files| == 0 then []
    else
      var rest := DirectoryNames(files[1..]);
      assert forall i :: 0 < i < |files| ==> files[i] == files[1..][i - 1];
      if files[0].kind == Directory then [files[0].name] + rest else rest
  }

  /** `scanLanguages`: the names of the directory children, none when the
      listing fails. */
  function ScanLanguages(root: File): (r: seq<string>)
    ensures !root.listable ==> r == []
    ensures forall n :: n in r <==> (root.listable &&
      exists i :: 0 <= i < |root.children| && root.children[i].kind == Directory && root.children[i].name == n)
  {
    if root.listable then DirectoryNames(root.children) else []
  }

  /** A namespace file: a regular file whose extension is `json` in any case. */
  predicate IsNamespaceFile(f: File) {
    f.kind == RegularFile && EqualsIgnoreCase(Extension(f.name), "json")
  }

  /** The extension-less names of the namespace files among `files`, in order. */
  function NamespaceNames(files: seq<File>): (r: seq<string>)
    ensures |r| <= |files|
    ensures forall n :: n in r <==>
      exists i :: 0 <= i < |files| && IsNamespaceFile(files[i]) && NameWithoutExtension(files[i].name) == n
  {
    if |files| == 0 then []
    else
      var rest := NamespaceNames(files[1..]);
      assert forall i :: 0 < i < |files| ==> files[i] == files[1..][i - 1];
      if IsNamespaceFile(files[0]) then [NameWithoutExtension(files[0].name)] + rest else rest
  }

  /** `scanNamespaces`: the namespace names of a language folder, none when
      the listing fails. */
  function ScanNamespaces(root: File): (r: seq<string>)
    ensures !root.listable ==> r == []
    ensures forall n :: n in r <==> (root.listable &&
      exists i :: 0 <= i < |root.children| && IsNamespaceFile(root.children[i]) && NameWithoutExtension(root.children[i].name) == n)
  {
    if root.listable then NamespaceNames(root.children) else []
  }

  /** Both listings keep listing order: listing a concatenation is
      concatenating the listings. */
  lemma {:induction false} ListingsKeepOrder(a: seq<File>, b: seq<File>)
    ensures DirectoryNames(a + b) == DirectoryNames(a) + DirectoryNames(b)
    ensures NamespaceNames(a + b) == NamespaceNames(a) + NamespaceNames(b)
  {
    if |a| == 0 {
      assert a + b == b;
    } else {
      assert (a + b)[0] == a[0];
      assert (a + b)[1..] == a[1..] + b;
      ListingsKeepOrder(a[1..], b);
    }
  }
}
