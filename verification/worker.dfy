/** The worker script: a `server` object whose `setup`, `reload` and `t`
    handlers answer the commands read from standard input. */
module Worker {
  import opened Basics
  import opened Strings
  import opened TranslationService

  /** A directory entry as the worker sees it: its name, what `statSync`
      reports (whether it is a directory; None when `statSync` throws, as
      for a dangling link), whether `readdirSync` can list it and what it
      lists, and what `require` yields for it (None when `require` throws). */
  datatype Entry = Entry(name: string, stat: Option<bool>, readable: bool, entries: seq<Entry>,
                         required: Option<Value>)

  /** The bundles of one language: namespace to required content. */
  type Bundles = map<string, Value>

  /** The options an i18next instance is created and initialised with. */
  datatype I18n = I18n(resources: map<string, Bundles>, lng: Value, fallbackLng: Value,
                       ns: seq<string>, defaultNS: Value)

  /** The `server` object's state. */
  datatype Server = Server(i18n: Option<I18n>, dir: Option<string>)

  const Initial: Server := Server(None, None)

  /** What the worker cannot compute itself: whether i18next can be loaded
      from the working directory, directory listings (None when
      `readdirSync` throws), i18next's own `exists` and `t`, and what a
      method inherited from `Object.prototype` returns for the given
      arguments (None when it throws). */
  datatype Env = Env(hasI18next: bool, readDir: string -> Option<seq<Entry>>,
                     keyExists: (I18n, seq<Value>) -> bool, translate: (I18n, seq<Value>) -> string,
                     inherited: (string, seq<Value>) -> Option<Value>)

  /** A handler either returns a value, leaving the server in some state,
      or throws, leaving it as it was. */
  datatype Outcome = Returned(data: Value, next: Server) | Threw

  const JsonSuffix: string := ".json"

  /** What `setup` returns when i18next cannot be loaded. */
  const NoI18nextMessage: string := "no i18next found"

  /** `file.replace(/\.json$/, '')` for a name ending in `.json`. */
  function StripJson(name: string): (ns: string)
    requires EndsWith(name, JsonSuffix)
    ensures ns + JsonSuffix == name
  {
    name[..|name| - |JsonSuffix|]
  }

  /** `safeRequire`: what `require` yields, `undefined` when it throws. */
  function SafeRequire(e: Entry): Value {
    match e.required
    case Some(v) => v
    case None => Undefined
  }

  predicate IsJsonFile(e: Entry) {
    EndsWith(e.name, JsonSuffix)
  }

  /** Entry `e` is a `.json` file for namespace `n` with content `v`. */
  predicate Provides(e: Entry, n: string, v: Value) {
    IsJsonFile(e) && StripJson(e.name) == n && SafeRequire(e) == v
  }

  /** The namespaces of a language folder's `.json` entries (by name
      alone, case sensitive), in listing order. */
  function NamespaceList(files: seq<Entry>): (r: seq<string>)
    ensures |r| <= |files|
    ensures forall n :: n in r <==>
      exists j :: 0 <= j < |files| && IsJsonFile(files[j]) && StripJson(files[j].name) == n
  {
    if |files| == 0 then []
    else
      var rest := NamespaceList(files[1..]);
      assert forall j :: 0 < j < |files| ==> files[j] == files[1..][j - 1];
      if IsJsonFile(files[0]) then [StripJson(files[0].name)] + rest else rest
  }

  /** Each namespace of a language folder with the content required for it. */
  function BundleMap(files: seq<Entry>): (r: Bundles)
    ensures forall n :: n in r ==> exists j :: 0 <= j < |files| && Provides(files[j], n, r[n])
    ensures forall j :: 0 <= j < |files| && IsJsonFile(files[j]) ==> StripJson(files[j].name) in r
  {
    if |files| == 0 then map[]
    else
      var rest := BundleMap(files[1..]);
      var f := files[0];
      if IsJsonFile(f) then
        var ns := StripJson(f.name);
        var m := map[ns := SafeRequire(f)] + rest;
        BundleStep(files, rest, m);
        m
      else
        BundleSkip(files, rest);
        rest
  }

  lemma BundleStep(files: seq<Entry>, rest: Bundles, m: Bundles)
    requires |files| > 0 && IsJsonFile(files[0])
    requires forall n :: n in rest ==> exists j :: 0 <= j < |files[1..]| && Provides(files[1..][j], n, rest[n])
    requires forall j :: 0 <= j < |files[1..]| && IsJsonFile(files[1..][j]) ==> StripJson(files[1..][j].name) in rest
    requires m == map[StripJson(files[0].name) := SafeRequire(files[0])] + rest
    ensures forall n :: n in m ==> exists j :: 0 <= j < |files| && Provides(files[j], n, m[n])
    ensures forall j :: 0 <= j < |files| && IsJsonFile(files[j]) ==> StripJson(files[j].name) in m
  {
    var ns := StripJson(files[0].name);
    forall n | n in m
      ensures exists j :: 0 <= j < |files| && Provides(files[j], n, m[n])
    {
      if n !in rest {
        assert Provides(files[0], n, m[n]);
      } else {
        var j :| 0 <= j < |files[1..]| && Provides(files[1..][j], n, rest[n]);
        assert Provides(files[j + 1], n, m[n]);
      }
    }
    forall j | 0 < j < |files| && IsJsonFile(files[j])
      ensures StripJson(files[j].name) in m
    {
      assert files[j] == files[1..][j - 1];
    }
  }

  lemma BundleSkip(files: seq<Entry>, rest: Bundles)
    requires |files| > 0 && !IsJsonFile(files[0])
    requires forall n :: n in rest ==> exists j :: 0 <= j < |files[1..]| && Provides(files[1..][j], n, rest[n])
    requires forall j :: 0 <= j < |files[1..]| && IsJsonFile(files[1..][j]) ==> StripJson(files[1..][j].name) in rest
    ensures forall n :: n in rest ==> exists j :: 0 <= j < |files| && Provides(files[j], n, rest[n])
    ensures forall j :: 0 <= j < |files| && IsJsonFile(files[j]) ==> StripJson(files[j].name) in rest
  {
    forall n | n in rest
      ensures exists j :: 0 <= j < |files| && Provides(files[j], n, rest[n])
    {
      var j :| 0 <= j < |files[1..]| && Provides(files[1..][j], n, rest[n]);
      assert Provides(files[j + 1], n, rest[n]);
    }
    forall j | 0 < j < |files| && IsJsonFile(files[j])
      ensures StripJson(files[j].name) in rest
    {
      assert files[j] == files[1..][j - 1];
    }
  }

  /** An entry `setup` looks at: one whose name is the language (strictly
      equal, so a language that is not a string matches nothing). */
  predicate IsLanguageEntry(e: Entry, lang: Value) {
    lang == Str(e.name)
  }

  /** An entry `setup` reads: a directory whose name is the language. */
  predicate IsLanguageDir(e: Entry, lang: Value) {
    IsLanguageEntry(e, lang) && e.stat == Some(true)
  }

  /** Looking at this entry throws: `statSync` fails on it, or it is a
      directory that cannot be listed. */
  predicate Unreadable(e: Entry, lang: Value) {
    IsLanguageEntry(e, lang) && (e.stat.None? || (e.stat == Some(true) && !e.readable))
  }

  /** The loop of `setup` over the folder's entries: only an entry named
      after the language is looked at, only a directory is read, and the
      loop throws when that entry cannot be stat'ed or listed. */
  function ScanFolder(entries: seq<Entry>, lang: Value): (r: Try<(seq<string>, map<string, Bundles>)>)
    ensures r.Throws? <==> exists i :: 0 <= i < |entries| && Unreadable(entries[i], lang)
    ensures r.Ok? ==> forall k :: k in r.value.1 ==> lang == Str(k)
    ensures r.Ok? ==> FromLanguageDirs(entries, lang, r.value.1, (e: Entry) => BundleMap(e.entries))
    ensures r.Ok? && (exists i :: 0 <= i < |entries| && IsLanguageDir(entries[i], lang)) ==> lang.Str? && lang.s in r.value.1
    ensures r.Ok? ==> forall n :: n in r.value.0 <==>
      exists i, j :: 0 <= i < |entries| && IsLanguageDir(entries[i], lang) && 0 <= j < |entries[i].entries|
        && IsJsonFile(entries[i].entries[j]) && StripJson(entries[i].entries[j].name) == n
  {
    if |entries| == 0 then Ok(([], map[]))
    else
      var e := entries[0];
      var rest := ScanFolder(entries[1..], lang);
      assert forall i :: 0 < i < |entries| ==> entries[i] == entries[1..][i - 1];
      if !IsLanguageEntry(e, lang) then
        (match rest
         case Throws => rest
         case Ok(v) => ScanSkipResources(entries, lang, v.1, (e: Entry) => BundleMap(e.entries)); rest)
      else
        match e.stat
        case None => assert Unreadable(entries[0], lang); Throws
        case Some(false) =>
          (match rest
           case Throws => rest
           case Ok(v) => ScanSkipResources(entries, lang, v.1, (e: Entry) => BundleMap(e.entries)); rest)
        case Some(true) =>
          if !e.readable then assert Unreadable(entries[0], lang); Throws
          else
            assert IsLanguageDir(entries[0], lang);
            match rest
            case Throws => Throws
            case Ok((nss, res)) =>
              ScanResources(entries, lang, res, (e: Entry) => BundleMap(e.entries));
              Ok((NamespaceList(e.entries) + nss, map[e.name := BundleMap(e.entries)] + res))
  }

  /** The resources hold, for each key, the bundle of a language
      directory among `entries`. */
  ghost predicate FromLanguageDirs<B>(entries: seq<Entry>, lang: Value, res: map<string, B>, bundle: Entry -> B) {
    forall k :: k in res ==>
      exists i :: 0 <= i < |entries| && IsLanguageDir(entries[i], lang) && res[k] == bundle(entries[i])
  }

  /** Skipping a first entry that is not a language directory keeps the
      resources' provenance. */
  lemma ScanSkipResources<B>(entries: seq<Entry>, lang: Value, res: map<string, B>, bundle: Entry -> B)
    requires |entries| > 0 && !IsLanguageDir(entries[0], lang)
    requires FromLanguageDirs(entries[1..], lang, res, bundle)
    ensures FromLanguageDirs(entries, lang, res, bundle)
    ensures (exists i :: 0 <= i < |entries| && IsLanguageDir(entries[i], lang)) ==>
      exists i :: 0 <= i < |entries[1..]| && IsLanguageDir(entries[1..][i], lang)
  {
    if exists i :: 0 <= i < |entries| && IsLanguageDir(entries[i], lang) {
      var i :| 0 <= i < |entries| && IsLanguageDir(entries[i], lang);
      assert entries[1..][i - 1] == entries[i];
    }
    forall k | k in res
      ensures exists i :: 0 <= i < |entries| && IsLanguageDir(entries[i], lang) && res[k] == bundle(entries[i])
    {
      var i :| 0 <= i < |entries[1..]| && IsLanguageDir(entries[1..][i], lang) && res[k] == bundle(entries[1..][i]);
      assert entries[i + 1] == entries[1..][i];
    }
  }

  /** A scan step's resources: the first directory's bundle, replaced by
      the one a later directory of the same name gives. */
  lemma ScanResources<B>(entries: seq<Entry>, lang: Value, res: map<string, B>, bundle: Entry -> B)
    requires |entries| > 0 && IsLanguageDir(entries[0], lang)
    requires FromLanguageDirs(entries[1..], lang, res, bundle)
    ensures FromLanguageDirs(entries, lang, map[entries[0].name := bundle(entries[0])] + res, bundle)
  {
    var m := map[entries[0].name := bundle(entries[0])] + res;
    forall k | k in m
      ensures exists i :: 0 <= i < |entries| && IsLanguageDir(entries[i], lang) && m[k] == bundle(entries[i])
    {
      if k in res {
        var i :| 0 <= i < |entries[1..]| && IsLanguageDir(entries[1..][i], lang) && res[k] == bundle(entries[1..][i]);
        assert entries[i + 1] == entries[1..][i];
      } else {
        assert m[k] == bundle(entries[0]);
      }
    }
  }

  /** `setup(dir, lang, defaultNS)`. Without i18next it answers with a
      message and changes nothing. Otherwise the folder is scanned, and
      only once the scan has completed are `dir` and a new i18next
      instance stored, with `lng` and `fallbackLng` both the language. It
      throws exactly when the folder is not a string, cannot be listed, or
      the scan throws. */
  function Setup(server: Server, args: seq<Value>, env: Env): (r: Outcome)
    ensures !env.hasI18next ==> r == Returned(Str(NoI18nextMessage), server)
    ensures r.Returned? && env.hasI18next ==>
      r.data == Undefined && Arg(args, 0).Str? && r.next.dir == Some(Arg(args, 0).s)
      && r.next.i18n.Some? && r.next.i18n.value.lng == Arg(args, 1)
      && r.next.i18n.value.fallbackLng == Arg(args, 1) && r.next.i18n.value.defaultNS == Arg(args, 2)
      && env.readDir(Arg(args, 0).s).Some?
      && ScanFolder(env.readDir(Arg(args, 0).s).value, Arg(args, 1))
         == Ok((r.next.i18n.value.ns, r.next.i18n.value.resources))
    ensures env.hasI18next ==>
      (r.Threw? <==> !Arg(args, 0).Str? || env.readDir(Arg(args, 0).s).None?
                     || ScanFolder(env.readDir(Arg(args, 0).s).value, Arg(args, 1)).Throws?)
  {
    if !env.hasI18next then Returned(Str(NoI18nextMessage), server)
    else
      match Arg(args, 0)
      case Str(dir) =>
        (match env.readDir(dir)
         case None => Threw
         case Some(entries) =>
           match ScanFolder(entries, Arg(args, 1))
           case Throws => Threw
           case Ok((nss, res)) =>
             Returned(Undefined, Server(Some(I18n(res, Arg(args, 1), Arg(args, 1), nss, Arg(args, 2))), Some(dir))))
      case _ => Threw
  }

  /** `reload(ns)`: without a set-up instance it returns `undefined` and
      changes nothing. With one, building the bundle's path passes an
      object to `path.join`, which throws, so no bundle is ever merged. */
  function Reload(server: Server): (r: Outcome)
    ensures server.i18n.None? ==> r == Returned(Undefined, server)
    ensures server.i18n.Some? ==> r == Threw
  {
    if server.i18n.None? then Returned(Undefined, server) else Threw
  }

  /** Before any setup `reload` is answered with `undefined`; once a setup
      with i18next has succeeded, `reload` never succeeds again. */
  lemma ReloadAroundSetup(args: seq<Value>, env: Env)
    ensures Reload(Initial) == Returned(Undefined, Initial)
    ensures env.hasI18next && Setup(Initial, args, env).Returned? ==> Reload(Setup(Initial, args, env).next) == Threw
  {
  }

  /** The text `t` answers with: empty when not set up or when the key does
      not exist, otherwise i18next's translation in double quotes. */
  function TText(server: Server, args: seq<Value>, env: Env): (r: string)
    ensures server.i18n.None? ==> r == ""
    ensures server.i18n.Some? && !env.keyExists(server.i18n.value, args) ==> r == ""
    ensures server.i18n.Some? && env.keyExists(server.i18n.value, args) ==>
      |r| >= 2 && r[0] == '"' && r[|r| - 1] == '"'
      && r[1..|r| - 1] == env.translate(server.i18n.value, args)
  {
    if server.i18n.None? || !env.keyExists(server.i18n.value, args) then ""
    else "\"" + env.translate(server.i18n.value, args) + "\""
  }

  /** The methods `server` inherits from `Object.prototype`. None of them
      can change the server when its arguments come from JSON, since the
      ones that could need a function argument. */
  const InheritedMethods: set<string> := {"constructor", "hasOwnProperty", "isPrototypeOf",
    "propertyIsEnumerable", "toLocaleString", "toString", "valueOf", "__defineGetter__",
    "__defineSetter__", "__lookupGetter__", "__lookupSetter__"}

  /** `server[action](...args)`: the three handlers, or an inherited method,
      which answers without changing the server. Any other name (`exit`,
      the data members `i18n` and `dir`, `__proto__`) is not a function
      and the call throws. */
  function Handle(server: Server, c: Command, env: Env): Outcome {
    match c.action
    case "setup" => Setup(server, c.args, env)
    case "reload" => Reload(server)
    case "t" => Returned(Str(TText(server, c.args, env)), server)
    case a =>
      if a !in InheritedMethods then Threw
      else match env.inherited(a, c.args)
        case Some(v) => Returned(v, server)
        case None => Threw
  }

  /** One chunk of standard input, already parsed (None when it is not a
      command): a handler that returns is answered with its data and the
      command's timestamp; a malformed chunk or a throwing handler gets no
      answer and leaves the server as it was. */
  function Dispatch(server: Server, chunk: Option<Command>, env: Env): (r: (Server, Option<Response>))
    ensures r.1.Some? ==> chunk.Some? && r.1.value.to == chunk.value.timestamp
    ensures r.1.None? ==> r.0 == server
    ensures chunk.None? ==> r == (server, None)
    ensures chunk.Some? && chunk.value.action !in {"setup", "reload", "t"} ==> r.0 == server
    ensures chunk.Some? && chunk.value.action !in {"setup", "reload", "t"} && chunk.value.action !in InheritedMethods
      ==> r.1.None?
    ensures chunk.Some? && chunk.value.action in InheritedMethods ==>
      r.1 == (match env.inherited(chunk.value.action, chunk.value.args)
              case Some(v) => Some(Response(chunk.value.timestamp, v))
              case None => None)
  {
    match chunk
    case None => (server, None)
    case Some(c) =>
      match Handle(server, c, env)
      case Threw => (server, None)
      case Returned(data, next) => (next, Some(Response(c.timestamp, data)))
  }

  /** The timestamps of the chunks that parse as commands, in order. */
  function Stamps(parse: string -> Option<Command>, chunks: seq<string>): seq<int> {
    if |chunks| == 0 then []
    else
      match parse(chunks[0])
      case Some(c) => [c.timestamp] + Stamps(parse, chunks[1..])
      case None => Stamps(parse, chunks[1..])
  }

  function Tos(replies: seq<Response>): (ts: seq<int>)
    ensures |ts| == |replies|
    ensures forall i :: 0 <= i < |replies| ==> ts[i] == replies[i].to
  {
    if |replies| == 0 then [] else [replies[0].to] + Tos(replies[1..])
  }

  /** `a` is `b` with some elements left out. */
  ghost predicate IsSubsequence(a: seq<int>, b: seq<int>) {
    |a| == 0 || (|b| > 0 && ((a[0] == b[0] && IsSubsequence(a[1..], b[1..])) || IsSubsequence(a, b[1..])))
  }

  /** The worker's input loop over successive chunks: at most one answer
      per chunk, and the answers' `to` fields are the commands'
      timestamps, in order, with the unanswered ones left out. */
  function Serve(server: Server, chunks: seq<string>, parse: string -> Option<Command>, env: Env)
    : (r: (Server, seq<Response>))
    ensures |r.1| <= |chunks|
    decreases |chunks|
    ensures IsSubsequence(Tos(r.1), Stamps(parse, chunks))
  {
    if |chunks| == 0 then (server, [])
    else
      var (s1, reply) := Dispatch(server, parse(chunks[0]), env);
      var (s2, rest) := Serve(s1, chunks[1..], parse, env);
      match reply
      case Some(x) =>
        assert Tos([x] + rest) == [x.to] + Tos(rest);
        (s2, [x] + rest)
      case None => (s2, rest)
  }

  /** A stream of `reload` commands leaves the server as it was. Without an
      instance each is answered with `undefined`, in order; with one none
      is answered. */
  lemma {:induction false} ReloadStream(server: Server, chunks: seq<string>,
                                        parse: string -> Option<Command>, env: Env)
    requires forall i :: 0 <= i < |chunks| ==> parse(chunks[i]).Some? && parse(chunks[i]).value.action == "reload"
    ensures Serve(server, chunks, parse, env).0 == server
    ensures server.i18n.Some? ==> Serve(server, chunks, parse, env).1 == []
    ensures server.i18n.None? ==> Tos(Serve(server, chunks, parse, env).1) == Stamps(parse, chunks)
    ensures server.i18n.None? ==> forall x :: x in Serve(server, chunks, parse, env).1 ==> x.data == Undefined
  {
    if |chunks| > 0 {
      assert forall i :: 0 < i < |chunks| ==> chunks[i] == chunks[1..][i - 1];
      ReloadStream(server, chunks[1..], parse, env);
      var c := parse(chunks[0]).value;
      var rest := Serve(server, chunks[1..], parse, env).1;
      if server.i18n.None? {
        var x := Response(c.timestamp, Undefined);
        assert Dispatch(server, parse(chunks[0]), env) == (server, Some(x));
        assert Tos([x] + rest) == [x.to] + Tos(rest);
      } else {
        assert Dispatch(server, parse(chunks[0]), env) == (server, None);
      }
    }
  }

  /** When every chunk is a `t` command, each gets exactly one answer, in
      order, addressed to its timestamp. */
  lemma {:induction false} EveryTCommandAnswered(server: Server, chunks: seq<string>,
                                                 parse: string -> Option<Command>, env: Env)
    requires forall i :: 0 <= i < |chunks| ==> parse(chunks[i]).Some? && parse(chunks[i]).value.action == "t"
    ensures |Serve(server, chunks, parse, env).1| == |chunks|
    ensures Tos(Serve(server, chunks, parse, env).1) == Stamps(parse, chunks)
    ensures Serve(server, chunks, parse, env).0 == server
  {
    if |chunks| > 0 {
      assert forall i :: 0 < i < |chunks| ==> chunks[i] == chunks[1..][i - 1];
      EveryTCommandAnswered(server, chunks[1..], parse, env);
      var c := parse(chunks[0]).value;
      var x := Response(c.timestamp, Str(TText(server, c.args, env)));
      assert Dispatch(server, parse(chunks[0]), env) == (server, Some(x));
      var rest := Serve(server, chunks[1..], parse, env).1;
      assert Tos([x] + rest) == [x.to] + Tos(rest);
    }
  }
}
