# i18next folding for WebStorm, modelled in Dafny

This project models the core of an IDE plugin. The plugin shows i18next
translations in place of `t("key", …)` calls in JavaScript and TypeScript
editors. The plugin side (Kotlin) finds each translation call in the syntax
tree and collects its arguments. It sends them as a `t` command to a Node
worker (`index.js`), waits for the reply that carries the command's
timestamp, and folds the call's arguments into the returned text. Around that
core sit:

- the search for the project's `locales` folder;
- the persisted settings, which fill in that folder when it is empty;
- a debounced refresh of the folds;
- a caret rule that opens the fold under the caret and closes the others;
- a listener that sends `reload` when a namespace file of the previewed
  language changes.

Each source file has one module:

| module | file |
|---|---|
| `TranslationService` | the plugin's command/response queue and the worker lifecycle |
| `Worker` | `index.js`: `setup`, `reload`, `t` and the stdin dispatcher |
| `FoldingBuilder` | the walk of the syntax tree, argument collection, descriptors |
| `LocalesScanner`, `I18nUtil` | the two copies of the bounded locale-folder search and the listings |
| `Settings` | `State` defaults, `verify`, `loadState`, `apply` |
| `FileEditorListener` | caret-listener bookkeeping and the caret rule |
| `FoldingReloader` | the single-pending-request debounce and `reloadNow` |
| `JsonFileChangeListener` | change events to `reload` commands |
| `Protocol` | the two sides together: the round trip of a `t` command |

`Basics`, `Strings` and `Vfs` hold the shared vocabulary:

- `Option` and `Try` (Kotlin `null` and thrown exceptions);
- JSON-like values;
- insertion-ordered maps (JavaScript objects, Kotlin `LinkedHashMap`);
- file-name helpers;
- files, projects, virtual files and fold regions as plain values.

Inputs the plugin gets from its surroundings are parameters of the model:

- the disk listing;
- the clock (timestamps);
- the responses the reader thread delivers while a caller waits;
- the JSON parse of a reply line;
- the i18next library's `exists` and `t`;
- whether `require` of i18next succeeds.

Behaviours of the code that a quick reading misses:

- `fetchResult`'s `as? T` is an unchecked cast, because the type parameter is
  erased. A non-string reply therefore does not come back as null. It throws
  `ClassCastException` in `translate`, and the builder's catch turns that into
  "no descriptor" (`TranslationService.AsTranslation`).
- `reload` in `index.js` never merges a bundle once `setup` has succeeded.
  The closing parenthesis is misplaced, so `path.join` receives an object and
  throws, and the dispatcher sends no reply.
- `exit` has no handler in the worker. `stop`'s `exit` command throws there
  and gets no reply.
- When the base directory cannot be listed, `File(basePath).listFiles()`
  returns null. Passing that to `scan` throws, so detection throws instead of
  returning "".
- A fold region without a group prints as `"null"`. That never starts with
  the translation prefix.
- The builder's visitor does its check after `super.visitElement`, but the
  platform's recursive walker enters a node's children only after the
  visitor returns. Below the root, an enclosing `t(...)` is therefore
  translated before the calls nested in its arguments. Only the root itself
  is checked after its whole subtree.
- `setup` in the plugin calls `start()` with its default argument
  `File(project.basePath!!)`. For a project without a base path this throws
  after `stop` has run: no worker is started and no `setup` is sent.
- `loadState` lets an exception from `verify` propagate, and the held state
  stays as it was.
- In the worker, `fs.statSync` throws for a language entry it cannot stat,
  such as a dangling link, and then `setup` throws.
- `server[action]` also finds the methods `server` inherits from
  `Object.prototype`, so an action such as `toString` is answered.
- `fileClosed` never detaches its caret listener (see Findings).

## Model

| member | source | states |
|---|---|---|
| `TranslationService.Invoke` | src/main/kotlin/com/github/zjcrender/i18next/services/TranslationService.kt:60-73 | with no process nothing is written and the id is -1; otherwise exactly one command with the action, arguments and timestamp is appended, and that timestamp is returned |
| `TranslationService.Poll` | src/main/kotlin/com/github/zjcrender/i18next/services/TranslationService.kt:84-98 | the result is the data of the first response within the budget whose `to` is the id; every response before it is removed for good; with no match inside the budget nothing is returned and the polled prefix is gone |
| `TranslationService.FetchResult` | src/main/kotlin/com/github/zjcrender/i18next/services/TranslationService.kt:75-99 | for id -1 there is no result and the queue is untouched; otherwise the result and the remaining queue are the polling loop's; process and sent commands are unchanged |
| `TranslationService.Parsed` | src/main/kotlin/com/github/zjcrender/i18next/services/TranslationService.kt:116-124 | the reader keeps every line that parses, drops the rest, and invents nothing |
| `TranslationService.ParsedAppend` | src/main/kotlin/com/github/zjcrender/i18next/services/TranslationService.kt:116-124 | the reader keeps line order: parsing two batches of lines gives the concatenation of their results |
| `TranslationService.Receive` | src/main/kotlin/com/github/zjcrender/i18next/services/TranslationService.kt:116-124 | received responses are appended behind the queue in line order, and the queue's old contents stay in front |
| `TranslationService.Start` | src/main/kotlin/com/github/zjcrender/i18next/services/TranslationService.kt:101-113 | `start` does nothing while a process exists; otherwise a process runs in the given directory |
| `TranslationService.Stop` | src/main/kotlin/com/github/zjcrender/i18next/services/TranslationService.kt:129-135 | `exit` is sent only if a process was running; afterwards no process runs and the queue is kept |
| `TranslationService.InvokeAfterStop` | src/main/kotlin/com/github/zjcrender/i18next/services/TranslationService.kt:129-135 | after `stop`, `invoke` writes nothing and returns -1 |
| `TranslationService.Setup` | src/main/kotlin/com/github/zjcrender/i18next/services/TranslationService.kt:101-148 | `exit` is sent if a worker ran; without a base path `start()` throws there, so no worker runs and nothing more is sent; otherwise a worker runs in the base directory, one `setup` command follows with folder, language and namespace in that order, and a 100 ms fold refresh is the only pending request; the queue is kept |
| `TranslationService.NothingBeforeStart` | src/main/kotlin/com/github/zjcrender/i18next/services/TranslationService.kt:37-73 | a fresh service has no worker: `invoke` writes nothing and returns -1, and `translate` returns null |
| `TranslationService.AsTranslation` | src/main/kotlin/com/github/zjcrender/i18next/services/TranslationService.kt:96-153 | no result or null data is no translation; string data is the translation; any other data throws |
| `TranslationService.Translate` | src/main/kotlin/com/github/zjcrender/i18next/services/TranslationService.kt:150-153 | with no process the result is null and nothing is written; otherwise a `t` command with the arguments is sent and the result is what polling the queue for its timestamp yields, cast to a string |
| `TranslationService.MismatchedReplyIsLost` | src/main/kotlin/com/github/zjcrender/i18next/services/TranslationService.kt:90-97 | a reply for another caller that is queued ahead of one's own is taken and lost, so that caller never sees it |
| `Worker.StripJson` | src/main/resources/i18next/index.js:36 | removing the trailing `.json` gives a name that `.json` completes back to the file name |
| `Worker.NamespaceList` | src/main/resources/i18next/index.js:34-37 | the namespaces are exactly the stripped names of the entries ending in `.json` (case-sensitive), with no more entries than the listing |
| `Worker.BundleMap` | src/main/resources/i18next/index.js:33-39 | every `.json` entry's namespace is a key, and each key holds what `safeRequire` gave for a file of that namespace |
| `Worker.ScanFolder` | src/main/resources/i18next/index.js:26-41 | only the entry named after the language is looked at, and only if it is a directory is it read; the scan throws exactly when that entry cannot be stat'ed, or is a directory that cannot be listed; the resources are keyed by the language alone, each key holding the bundle map of a language directory, and the language is a key whenever such a directory is present; the namespaces are those of its `.json` files |
| `Worker.ScanSkipResources` | src/main/resources/i18next/index.js:26-31 | an entry that is not a language directory adds no resources and removes none, so every key still holds the bundle of a language directory |
| `Worker.ScanResources` | src/main/resources/i18next/index.js:26-40 | reading a language directory stores its bundle map under its name, and a later directory of the same name replaces it; every key still holds the bundle of a language directory |
| `Worker.Setup` | src/main/resources/i18next/index.js:19-52 | without i18next it answers "no i18next found" and changes nothing; with i18next it throws exactly when the folder is not a string, cannot be listed or its scan throws; on success `dir` and a new instance are stored, with `lng` and `fallbackLng` both the language, the given default namespace, and resources and namespaces from the completed scan |
| `Worker.Reload` | src/main/resources/i18next/index.js:54-64 | without an instance it answers undefined and changes nothing; with one it always throws, so no bundle is merged |
| `Worker.ReloadAroundSetup` | src/main/resources/i18next/index.js:15-64 | before any setup `reload` answers undefined; once a setup with i18next has succeeded, `reload` throws |
| `Worker.ReloadStream` | src/main/resources/i18next/index.js:54-85 | a stream of `reload` commands leaves the worker unchanged; without an instance each is answered with undefined, one for one and in order; with one none is answered |
| `Worker.TText` | src/main/resources/i18next/index.js:66-73 | "" when not set up or when the key does not exist; otherwise i18next's translation between double quotes |
| `Worker.Dispatch` | src/main/resources/i18next/index.js:76-85 | a reply carries the command's timestamp; an unparseable chunk or a throwing handler gets no reply and changes nothing; a method inherited from `Object.prototype` is answered with what it returns, without changing the worker; any other action (such as `exit`) gets no reply |
| `Worker.Tos` | src/main/resources/i18next/index.js:79-82 | the `to` fields of the replies, one per reply, in order |
| `Worker.Serve` | src/main/resources/i18next/index.js:76-85 | at most one reply per chunk, and the replies' `to` fields are the parsed commands' timestamps in order, with the unanswered ones left out |
| `Worker.EveryTCommandAnswered` | src/main/resources/i18next/index.js:66-85 | a stream of `t` commands is answered one for one, in order, and leaves the worker's state unchanged |
| `FoldingBuilder.Associate` | src/main/kotlin/com/github/zjcrender/i18next/folding/TranslationFoldingBuilder.kt:122 | the property map has each property name once, in first-occurrence order |
| `FoldingBuilder.AssociateLastWins` | src/main/kotlin/com/github/zjcrender/i18next/folding/TranslationFoldingBuilder.kt:122 | a name maps to the value of its last occurrence: a literal's value, null for anything else |
| `FoldingBuilder.AssociateOnlyNames` | src/main/kotlin/com/github/zjcrender/i18next/folding/TranslationFoldingBuilder.kt:122 | the map's keys are exactly the names of the object literal's properties |
| `FoldingBuilder.CollectArguments` | src/main/kotlin/com/github/zjcrender/i18next/folding/TranslationFoldingBuilder.kt:109-133 | one entry per argument, in order: the literal's value, the property map of an object literal, or the source text of anything else |
| `FoldingBuilder.Calls` | src/main/kotlin/com/github/zjcrender/i18next/folding/TranslationFoldingBuilder.kt:52-56 | every node the walk of a subtree hands to the builder is a call whose callee is a reference named `t` |
| `FoldingBuilder.ChildCalls` | src/main/kotlin/com/github/zjcrender/i18next/folding/TranslationFoldingBuilder.kt:52-56 | every node the walk below a node hands to the builder is a translation call |
| `FoldingBuilder.CallsInAll` | src/main/kotlin/com/github/zjcrender/i18next/folding/TranslationFoldingBuilder.kt:52-56 | every node the walk of a list of children hands to the builder is a translation call |
| `FoldingBuilder.CallsInProperties` | src/main/kotlin/com/github/zjcrender/i18next/folding/TranslationFoldingBuilder.kt:52-56 | every node the walk of an object literal's property values hands to the builder is a translation call |
| `FoldingBuilder.CallsSound` | src/main/kotlin/com/github/zjcrender/i18next/folding/TranslationFoldingBuilder.kt:48-58 | the walk below a node visits only calls whose callee is a reference named `t`, whatever the qualifier, and only nodes of that subtree |
| `FoldingBuilder.ChildCallsSound` | src/main/kotlin/com/github/zjcrender/i18next/folding/TranslationFoldingBuilder.kt:49-50 | the calls the walk finds below a node are translation calls strictly inside it |
| `FoldingBuilder.CallsInAllSound` | src/main/kotlin/com/github/zjcrender/i18next/folding/TranslationFoldingBuilder.kt:49-50 | the calls found in a list of children are translation calls inside one of them |
| `FoldingBuilder.CallsInPropertiesSound` | src/main/kotlin/com/github/zjcrender/i18next/folding/TranslationFoldingBuilder.kt:49-50 | the calls found in an object literal's property values are translation calls inside one of them |
| `FoldingBuilder.CallsComplete` | src/main/kotlin/com/github/zjcrender/i18next/folding/TranslationFoldingBuilder.kt:48-58 | every translation call of a subtree the walker enters is visited |
| `FoldingBuilder.ChildCallsComplete` | src/main/kotlin/com/github/zjcrender/i18next/folding/TranslationFoldingBuilder.kt:49-50 | every translation call strictly inside a node is found below it |
| `FoldingBuilder.CallsInAllComplete` | src/main/kotlin/com/github/zjcrender/i18next/folding/TranslationFoldingBuilder.kt:49-50 | every translation call inside one of a list of children is found |
| `FoldingBuilder.CallsInPropertiesComplete` | src/main/kotlin/com/github/zjcrender/i18next/folding/TranslationFoldingBuilder.kt:49-50 | every translation call inside an object literal's property values is found |
| `FoldingBuilder.EnclosingCallFirst` | src/main/kotlin/com/github/zjcrender/i18next/folding/TranslationFoldingBuilder.kt:48-58 | below the root a node is checked before its children: a translation call comes first in its subtree's visiting order, ahead of every translation call nested inside it |
| `FoldingBuilder.RootCheckedLast` | src/main/kotlin/com/github/zjcrender/i18next/folding/TranslationFoldingBuilder.kt:48-50 | the root of the walk is checked last, after every translation call below it |
| `FoldingBuilder.WalkFindsCalls` | src/main/kotlin/com/github/zjcrender/i18next/folding/TranslationFoldingBuilder.kt:48-58 | the whole walk finds exactly the translation calls of the tree, the root included |
| `FoldingBuilder.OuterCallBeforeNested` | src/main/kotlin/com/github/zjcrender/i18next/folding/TranslationFoldingBuilder.kt:48-58 | in a file holding `t("a", { n: t("b") })` the outer call is visited, and so translated, before the nested one |
| `FoldingBuilder.GroupNames` | src/main/kotlin/com/github/zjcrender/i18next/folding/TranslationFoldingBuilder.kt:90 | group names start with `i18next-translation`, and calls at different offsets get different groups |
| `FoldingBuilder.Process` | src/main/kotlin/com/github/zjcrender/i18next/folding/TranslationFoldingBuilder.kt:67-107 | a descriptor exists exactly when the call has arguments and its translation neither throws nor is null or empty; it spans the first argument's start to the last argument's end, is grouped by the call's start offset and shows the translation |
| `FoldingBuilder.DescriptorsOf` | src/main/kotlin/com/github/zjcrender/i18next/folding/TranslationFoldingBuilder.kt:52-56 | one descriptor is kept for each visited call that yields one, and nothing else is kept |
| `FoldingBuilder.DescriptorsOfAppend` | src/main/kotlin/com/github/zjcrender/i18next/folding/TranslationFoldingBuilder.kt:39-56 | descriptors are appended in visiting order: the descriptors of two runs of visited calls are those of the first run followed by those of the second |
| `FoldingBuilder.DescriptorsOfOne` | src/main/kotlin/com/github/zjcrender/i18next/folding/TranslationFoldingBuilder.kt:52-56 | one visited call adds exactly its own descriptor when `processTranslationCall` yields one, and nothing otherwise |
| `FoldingBuilder.DescriptorsAround` | src/main/kotlin/com/github/zjcrender/i18next/folding/TranslationFoldingBuilder.kt:39-56 | a visited call's descriptor sits after the descriptors of the calls visited before it and before those of the calls visited after it |
| `FoldingBuilder.BuildFoldRegions` | src/main/kotlin/com/github/zjcrender/i18next/folding/TranslationFoldingBuilder.kt:34-65 | nothing in quick mode; otherwise exactly the descriptors of the tree's translation calls |
| `FoldingBuilder.RootRegionLast` | src/main/kotlin/com/github/zjcrender/i18next/folding/TranslationFoldingBuilder.kt:48-64 | when the node handed to the builder is itself an accepted translation call, the result is the descriptors of the calls strictly inside it, in visiting order, followed by its own |
| `FoldingBuilder.ExampleRegionsInOrder` | src/main/kotlin/com/github/zjcrender/i18next/folding/TranslationFoldingBuilder.kt:48-64 | for a file holding `t("a", { n: t("b") })` the result is the outer call's descriptor, if any, followed by the nested call's, if any |
| `FoldingBuilder.ExampleRegionsBothShown` | src/main/kotlin/com/github/zjcrender/i18next/folding/TranslationFoldingBuilder.kt:48-64 | when both calls of that file are accepted, the result is exactly their two descriptors, the outer call's first |
| `FoldingBuilder.RegionOf` | src/main/kotlin/com/github/zjcrender/i18next/folding/TranslationFoldingBuilder.kt:169 | the region shown for a descriptor covers its range, starts collapsed, and is a translation region exactly when the descriptor's group name carries the translation prefix |
| `FoldingBuilder.BuiltRegionsAreTranslationRegions` | src/main/kotlin/com/github/zjcrender/i18next/folding/TranslationFoldingBuilder.kt:90-169 | every region built starts collapsed and lies in a translation group, so the caret rule and the refresh act on it |
| `LocalesScanner.ScanSound` | src/main/kotlin/com/github/zjcrender/i18next/util/LocalesScanner.kt:12-29 | a non-empty result is the path of a non-excluded directory named `locales`, reached through non-excluded directories, no deeper than level 5 |
| `LocalesScanner.ScanComplete` | src/main/kotlin/com/github/zjcrender/i18next/util/LocalesScanner.kt:12-29 | when such a folder is reachable, the search returns a non-empty path |
| `LocalesScanner.ScanConcat` | src/main/kotlin/com/github/zjcrender/i18next/util/LocalesScanner.kt:15-26 | depth-first in listing order: an earlier part of the listing, subtrees included, is searched completely before a later part |
| `LocalesScanner.Prune` | src/main/kotlin/com/github/zjcrender/i18next/util/LocalesScanner.kt:16-17 | the pruned tree holds only non-excluded directories at its top level |
| `LocalesScanner.ScanIgnoresIneligible` | src/main/kotlin/com/github/zjcrender/i18next/util/LocalesScanner.kt:10-17 | excluded directories and non-directories are never entered: removing them does not change the result |
| `LocalesScanner.DetectMultilingualFolder` | src/main/kotlin/com/github/zjcrender/i18next/util/LocalesScanner.kt:8-32 | "" without a base path; throws exactly when the base cannot be listed; otherwise a non-empty answer is a reachable `locales` folder |
| `LocalesScanner.DirectoryNames` | src/main/kotlin/com/github/zjcrender/i18next/util/LocalesScanner.kt:35-36 | exactly the names of the directory entries |
| `LocalesScanner.ScanLanguages` | src/main/kotlin/com/github/zjcrender/i18next/util/LocalesScanner.kt:34-37 | exactly the names of the directory children; none when listing fails |
| `LocalesScanner.NamespaceNames` | src/main/kotlin/com/github/zjcrender/i18next/util/LocalesScanner.kt:40-43 | exactly the extension-less names of the regular files whose extension is `json` in any case |
| `LocalesScanner.ScanNamespaces` | src/main/kotlin/com/github/zjcrender/i18next/util/LocalesScanner.kt:39-44 | the same names among a folder's children; none when listing fails |
| `LocalesScanner.ListingsKeepOrder` | src/main/kotlin/com/github/zjcrender/i18next/util/LocalesScanner.kt:34-44 | both listings keep listing order: listing a concatenation concatenates the listings |
| `I18nUtil.SetProject` | src/main/kotlin/com/github/zjcrender/i18next/util/I18nUtil.kt:10-14 | the given project becomes the current one |
| `I18nUtil.ScanFiles` | src/main/kotlin/com/github/zjcrender/i18next/util/I18nUtil.kt:35-54 | the loop-and-return search of `detectLocalePath`, with the same exclusions and depth bound, returns what the scanner's search returns |
| `I18nUtil.DetectLocalePath` | src/main/kotlin/com/github/zjcrender/i18next/util/I18nUtil.kt:31-57 | "" without a current project; otherwise the same outcome as the scanner's detection for that project, including "" without a base path |
| `I18nUtil.DetectAfterSetProject` | src/main/kotlin/com/github/zjcrender/i18next/util/I18nUtil.kt:12-32 | detection uses the project set last |
| `I18nUtil.DetectBeforeSetProject` | src/main/kotlin/com/github/zjcrender/i18next/util/I18nUtil.kt:10-33 | before any project is set, detection finds nothing |
| `Settings.Verify` | src/main/kotlin/com/github/zjcrender/i18next/settings/I18nextSettings.kt:38-56 | a non-empty folder is kept; an empty one is replaced by the detected folder; the warning fires exactly when the folder is still empty; language and namespace pass through |
| `Settings.VerifyIdempotent` | src/main/kotlin/com/github/zjcrender/i18next/settings/I18nextSettings.kt:38-56 | verifying an already verified state changes nothing |
| `Settings.LoadState` | src/main/kotlin/com/github/zjcrender/i18next/settings/I18nextSettings.kt:34-56 | loading throws exactly when the loaded folder is empty and detection throws; a non-empty folder is held as loaded without a warning; an empty one is replaced by the detected folder; the warning fires exactly when the held folder is empty; language and namespace are held as loaded |
| `Settings.LoadDefaults` | src/main/kotlin/com/github/zjcrender/i18next/settings/I18nextSettings.kt:23-56 | loading the default state holds the detected folder, no language and the `translation` namespace, warning when nothing was detected |
| `Settings.LoadedStateSettled` | src/main/kotlin/com/github/zjcrender/i18next/settings/I18nextSettings.kt:34-56 | a loaded state is settled: verifying it again changes nothing and raises the warning exactly when loading did |
| `Settings.Apply` | src/main/kotlin/com/github/zjcrender/i18next/settings/I18nextSettings.kt:58-61 | the whole state is replaced |
| `Settings.ApplySkipsDetection` | src/main/kotlin/com/github/zjcrender/i18next/settings/I18nextSettings.kt:34-61 | only loading fills in the folder: applying a state with an empty folder keeps it empty, where loading it holds the detected folder |
| `FileEditorListener.FileOpened` | src/main/kotlin/com/github/zjcrender/i18next/listeners/FileEditorListener.kt:23-36 | a file without PSI throws; only a JavaScript/TypeScript file with a selected text editor gets a listener, attached to that editor and recorded for the file, replacing an earlier record; otherwise nothing changes |
| `FileEditorListener.FileClosed` | src/main/kotlin/com/github/zjcrender/i18next/listeners/FileEditorListener.kt:38-46 | as written: the file's record is always removed and the other records stay; no listener is ever detached |
| `FileEditorListener.ClosedListenerStaysAttached` | src/main/kotlin/com/github/zjcrender/i18next/listeners/FileEditorListener.kt:23-46 | as written, opening a JavaScript file and closing it again leaves its caret listener attached to the editor |
| `FileEditorListener.FileClosedDetaching` | src/main/kotlin/com/github/zjcrender/i18next/listeners/FileEditorListener.kt:38-46 | as intended: the record is removed, the other records stay, and the recorded listener is detached from the file's text editor when it has one |
| `FileEditorListener.OpenThenCloseRestores` | src/main/kotlin/com/github/zjcrender/i18next/listeners/FileEditorListener.kt:23-46 | as intended, closing a file in the editor it was opened in undoes the opening: no record for the file, the other records as before, and the attached listeners as before |
| `FileEditorListener.CaretMoved` | src/main/kotlin/com/github/zjcrender/i18next/listeners/FileEditorListener.kt:49-71 | regions outside translation groups keep their state; a translation region ends expanded exactly when start <= caret <= end; with no caret nothing changes |
| `FileEditorListener.CaretMovedIdempotent` | src/main/kotlin/com/github/zjcrender/i18next/listeners/FileEditorListener.kt:54-67 | applying the caret rule twice for the same caret is applying it once |
| `FoldingReloader.ScheduleReload` | src/main/kotlin/com/github/zjcrender/i18next/folding/TranslationFoldingReloader.kt:25-28 | after a request exactly one is pending, with the requested delay |
| `FoldingReloader.RequestsCoalesce` | src/main/kotlin/com/github/zjcrender/i18next/folding/TranslationFoldingReloader.kt:21-28 | after any run of requests only the last one is pending |
| `FoldingReloader.Refold` | src/main/kotlin/com/github/zjcrender/i18next/folding/TranslationFoldingReloader.kt:47-52 | a translation region ends collapsed; other regions are untouched |
| `FoldingReloader.RefoldAll` | src/main/kotlin/com/github/zjcrender/i18next/folding/TranslationFoldingReloader.kt:46-53 | every region of the editor is refolded by that rule, in order |
| `FoldingReloader.ReloadNow` | src/main/kotlin/com/github/zjcrender/i18next/folding/TranslationFoldingReloader.kt:33-57 | only open js/jsx/ts/tsx files with a text editor change, and in them only translation regions, which end collapsed |
| `FoldingReloader.Fire` | src/main/kotlin/com/github/zjcrender/i18next/folding/TranslationFoldingReloader.kt:27 | when the alarm goes off, the oldest pending request runs `reloadNow` and leaves the queue; with none pending nothing happens |
| `FoldingReloader.RefreshRunsOnce` | src/main/kotlin/com/github/zjcrender/i18next/folding/TranslationFoldingReloader.kt:21-28 | however many requests were made, one refresh runs and then nothing is pending |
| `JsonFileChangeListener.ChangedFiles` | src/main/kotlin/com/github/zjcrender/i18next/listeners/JsonFileChangeListener.kt:23-24 | exactly the files of content-change events are considered |
| `JsonFileChangeListener.ChangedFilesAppend` | src/main/kotlin/com/github/zjcrender/i18next/listeners/JsonFileChangeListener.kt:23-24 | events are taken one by one: the files of two runs of events are those of the first run followed by those of the second |
| `JsonFileChangeListener.NamespacesThrow` | src/main/kotlin/com/github/zjcrender/i18next/listeners/JsonFileChangeListener.kt:25-26 | the batch throws exactly when a changed JSON file has no parent |
| `JsonFileChangeListener.NamespacesSelected` | src/main/kotlin/com/github/zjcrender/i18next/listeners/JsonFileChangeListener.kt:25-28 | the namespaces are the extension-less names of the changed files with extension exactly `json` whose parent is named after the previewed language |
| `JsonFileChangeListener.NamespacesAppend` | src/main/kotlin/com/github/zjcrender/i18next/listeners/JsonFileChangeListener.kt:25-28 | files are taken one by one: the namespaces of two runs of files are those of the first followed by those of the second, one per selected file, duplicates kept |
| `JsonFileChangeListener.ReloadAll` | src/main/kotlin/com/github/zjcrender/i18next/listeners/JsonFileChangeListener.kt:27-29 | one `reload` command with the namespace as its only argument per namespace, in the given order, when a process runs; nothing otherwise |
| `JsonFileChangeListener.ReloadAllAppend` | src/main/kotlin/com/github/zjcrender/i18next/listeners/JsonFileChangeListener.kt:27-29 | sending two lists of reloads in turn is sending their concatenation |
| `JsonFileChangeListener.After` | src/main/kotlin/com/github/zjcrender/i18next/listeners/JsonFileChangeListener.kt:18-35 | content changes of JSON files in the previewed language become `reload` commands; each surviving file requests a fold refresh, so exactly one 100 ms refresh is pending after a non-empty batch; a parentless JSON file throws before anything is sent |
| `JsonFileChangeListener.AfterInEventOrder` | src/main/kotlin/com/github/zjcrender/i18next/listeners/JsonFileChangeListener.kt:18-35 | a batch is handled in event order: its reloads are those for its first part followed by those for the rest |
| `Protocol.Wire` | src/main/kotlin/com/github/zjcrender/i18next/services/TranslationService.kt:64-68 | a literal argument is sent as its value and a text argument as a string of its text; an object-literal argument is sent with exactly its non-null members, in the order `NonNull` keeps |
| `Protocol.NonNullAppend` | src/main/kotlin/com/github/zjcrender/i18next/services/TranslationService.kt:64-68 | leaving out null members keeps the order of the literal: the members kept from two runs of entries are those of the first run followed by those of the second |
| `Protocol.NonNullKeepsNonNull` | src/main/kotlin/com/github/zjcrender/i18next/services/TranslationService.kt:64-68 | an object literal with no null member is sent whole and in order |
| `Protocol.WireAll` | src/main/kotlin/com/github/zjcrender/i18next/folding/TranslationFoldingBuilder.kt:83-85 | the worker receives one value per collected argument, in order, each the value `Wire` gives that argument |
| `Protocol.WorkerAnswersT` | src/main/resources/i18next/index.js:66-82 | the worker always answers `t` with the command's timestamp and the quoted text, and keeps its state |
| `Protocol.TranslateRoundTrip` | src/main/kotlin/com/github/zjcrender/i18next/services/TranslationService.kt:150-153 | with the process running, no stale reply for the id and time to drain the queue, `translate` returns exactly the worker's text |
| `Protocol.ServedTranslatorAnswers` | src/main/kotlin/com/github/zjcrender/i18next/folding/TranslationFoldingBuilder.kt:80-85 | when the worker serves the `t` command, the builder's translation of any collected arguments is the worker's text for their wire form |
| `Protocol.CallFoldsToQuotedTranslation` | src/main/kotlin/com/github/zjcrender/i18next/folding/TranslationFoldingBuilder.kt:83-103 | served by the worker, a translation call with arguments folds exactly when i18next knows the key, and the fold shows the translation in double quotes |
| `Protocol.SetupConfiguresWorker` | src/main/kotlin/com/github/zjcrender/i18next/services/TranslationService.kt:137-148 | the `setup` command the plugin sends, served by a worker that loads i18next, can list the folder and can stat (and, for a directory, list) its entry named after the language, is answered with undefined at its timestamp and leaves an instance with the settings' folder, language (also the fallback) and default namespace |

## Left out

- Process and stream plumbing is not modelled: the Node interpreter lookup,
  `ProcessBuilder`, copying the script to a temporary file, and the stdin and
  stdout streams are I/O.
- The reader thread and the synchronized writer are not modelled; they are
  concurrency. Responses that arrive while a caller waits are a parameter of
  `Translate`.
- The 10 ms timeout of `fetchResult` is a poll budget, not a clock.
- Timestamps come from `System.currentTimeMillis()` in the code; here they
  are a parameter (`now`, `clock`). Nothing in the code makes them unique,
  and nothing here assumes it.
- Gson's and `console.log`'s text formats are not modelled. The newline after
  each command is part of that format. Commands and replies are records, and
  parsing a reply line is a parameter. The round trip in `Protocol` assumes a
  printed reply parses back to itself. The one Gson rule kept is that map
  members whose value is null are left out (`Protocol.Wire`).
- Numbers are unbounded integers. JavaScript doubles and Kotlin `Long`
  timestamps are not modelled.
- The i18next library is not modelled: `exists`, `t`, interpolation, `init`
  and `addResourceBundle` are uninterpreted, and whether `require` succeeds is
  an input.
- `collectFunctionProperties` is not modelled: nothing calls it, and it
  depends on reference search.
- The syntax tree is a plain datatype with the shapes the builder tells apart.
  `FoldingDescriptor`, `FoldingGroup`, the Alarm, the event thread and the
  editor models are plain values too.
- A property whose name is null is not modelled; property names are strings.
- Notifications are not modelled. Only the condition under which the warning
  fires is (`Settings.Verified.warned`).
- `TranslationService.getInstance()` is called without a project in the
  builder. The translation function is a parameter of the builder instead.
- `I18nextConfigurable.kt` (a settings form) and `I18nextActivity.kt` (a
  startup wrapper) are not part of this model.
- `getResourceFilePath` is I/O and is not modelled.
- Case handling is ASCII only. This applies to `lowercase()` of language
  display names and to the case-insensitive `json` comparison. Full Unicode
  case mapping is not modelled.
- `getPlaceholderText`'s "..." is not modelled: every descriptor the builder
  makes carries its own placeholder, so the fallback is never asked for.
- The alarm's timing is not modelled. A pending request simply runs when it
  fires, whatever its delay.

## Findings

| source | as written | input that shows it | evidently intended | confidence | as-written member | corrected member |
|---|---|---|---|---|---|---|
| src/main/kotlin/com/github/zjcrender/i18next/listeners/FileEditorListener.kt:40-41 | `source.getSelectedEditor(file)` yields a `FileEditor`, which is never an `Editor`, so `removeCaretListener` never runs | open a JavaScript file in a text editor, then close it: its caret listener stays attached | detach the recorded listener from the file's text editor (`(editor as? TextEditor)?.editor`) | not executed; high | `FileEditorListener.ClosedListenerStaysAttached` | `FileEditorListener.OpenThenCloseRestores` |
