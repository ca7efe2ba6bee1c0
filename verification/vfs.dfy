/** The host platform's objects as plain values: files on disk, projects,
    virtual files of the editor and fold regions. */
module Vfs {
  import opened Basics
  import opened Strings

  /** What `java.io.File` reports a path to be. */
  datatype Kind = Directory | RegularFile | Special

  /** A `java.io.File`: its name, absolute path and kind, and the children
      `listFiles()` yields in listing order; `listable` is false when
      `listFiles()` returns null (not a directory, or an I/O error). */
  datatype File = File(name: string, path: string, kind: Kind, listable: bool, children: seq<File>)

  /** `listFiles()` of a file. */
  function ListFiles(f: File): (r: Option<seq<File>>)
    ensures r.Some? <==> f.listable
    ensures r.Some? ==> r.value == f.children
  {
    if f.listable then Some(f.children) else None
  }

  /** The part of a project this model uses: its base path, if it has one. */
  datatype Project = Project(basePath: Option<string>)

  /** The directory listing of an absolute path, None when `listFiles()`
      of that path returns null. The disk is an input of the model. */
  type Disk = string -> Option<seq<File>>

  /** A `VirtualFile` of the editor: its path (its identity), its name and
      the name of its parent directory (None for a root). */
  datatype VFile = VFile(path: string, name: string, parent: Option<string>)

  /** A fold region in an editor: its range, the debug name of its folding
      group (None when it has no group) and whether it is expanded. */
  datatype Region = Region(start: int, end: int, group: Option<string>, expanded: bool)

  /** `region.group.toString()`: a missing group prints as "null". */
  function GroupText(r: Region): string {
    match r.group
    case Some(g) => g
    case None => "null"
  }

  /** Group names of translation folds begin with this prefix. */
  const TranslationGroupPrefix: string := "i18next-translation"

  predicate IsTranslationRegion(r: Region) {
    StartsWith(GroupText(r), TranslationGroupPrefix)
  }
}
