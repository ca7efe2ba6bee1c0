/** The plugin and the worker together: what a translation call shows
    once its `t` command has made the round trip through the worker. */
module Protocol {
  import opened Basics
  import opened FoldingBuilder
  import TranslationService
  import Worker
  import Settings
  import FoldingReloader

  /** The JSON value an argument becomes on the wire. Gson leaves out the
      members of a map whose value is null; everything else is sent as is. */
  function Wire(a: Argument): (v: Value)
    ensures a.LiteralArg? ==> v == a.value
    ensures a.TextArg? ==> v == Str(a.text)
    ensures a.ObjectArg? ==> v.Obj? && forall m :: m in v.members <==> m in a.entries && m.1 != Null
    ensures a.ObjectArg? ==> v.members == NonNull(a.entries)
  {
    match a
    case LiteralArg(x) => x
    case ObjectArg(es) => Obj(NonNull(es))
    case TextArg(t) => Str(t)
  }

  function NonNull(es: seq<(string, Value)>): (r: seq<(string, Value)>)
    ensures forall m :: m in r <==> m in es && m.1 != Null
  {
    if |es| == 0 then []
    else (if es[0].1 != Null then [es[0]] else []) + NonNull(es[1..])
  }

  /** Gson writes a map in its iteration order, and the map is a
      `LinkedHashMap`: the members kept are in the order of the literal. */
  lemma {:induction false} NonNullAppend(a: seq<(string, Value)>, b: seq<(string, Value)>)
    ensures NonNull(a + b) == NonNull(a) + NonNull(b)
  {
    if |a| == 0 {
      assert a + b == b;
    } else {
      assert (a + b)[1..] == a[1..] + b;
      NonNullAppend(a[1..], b);
    }
  }

  /** A literal without null members is sent whole, in order. */
  lemma {:induction false} NonNullKeepsNonNull(es: seq<(string, Value)>)
    requires forall i :: 0 <= i < |es| ==> es[i].1 != Null
    ensures NonNull(es) == es
  {
    if |es| > 0 {
      NonNullKeepsNonNull(es[1..]);
    }
  }

  function WireAll(args: seq<Argument>): (r: seq<Value>)
    ensures |r| == |args|
    ensures forall i :: 0 <= i < |args| ==> r[i] == Wire(args[i])
  {
    if |args| == 0 then [] else [Wire(args[0])] + WireAll(args[1..])
  }

  /** The worker's answer to a `t` command, as a sequence of zero or one
      responses reaching the plugin's queue. */
  function WorkerReplies(server: Worker.Server, args: seq<Value>, now: int, env: Worker.Env)
    : seq<TranslationService.Response>
  {
    match Worker.Dispatch(server, Some(TranslationService.Command("t", args, now)), env).1
    case Some(x) => [x]
    case None => []
  }

  /** The worker always answers `t`, with the command's timestamp, the
      quoted translation and its state unchanged. */
  lemma WorkerAnswersT(server: Worker.Server, args: seq<Value>, now: int, env: Worker.Env)
    ensures Worker.Dispatch(server, Some(TranslationService.Command("t", args, now)), env)
      == (server, Some(TranslationService.Response(now, Str(Worker.TText(server, args, env)))))
  {
  }

  /** No response in the queue answers `id`. */
  predicate NoStaleReply(queue: seq<TranslationService.Response>, id: int) {
    forall j :: 0 <= j < |queue| ==> queue[j].to != id
  }

  /** The round trip: with the process running, no stale answer for the
      command's id in the queue and time enough to drain it, `translate`
      returns exactly the worker's text, quotes included. */
  lemma {:induction false} TranslateRoundTrip(s: TranslationService.Service, server: Worker.Server,
                                               args: seq<Value>, now: int, env: Worker.Env, budget: nat)
    requires s.process.Some? && now != TranslationService.NoId
    requires NoStaleReply(s.queue, now)
    requires budget > |s.queue|
    ensures TranslationService.Translate(s, args, now, WorkerReplies(server, args, now, env), budget).0
      == Ok(Some(Worker.TText(server, args, env)))
  {
    WorkerAnswersT(server, args, now, env);
    var reply := TranslationService.Response(now, Str(Worker.TText(server, args, env)));
    var q := s.queue + [reply];
    assert q[|s.queue|] == reply;
    var p := TranslationService.Poll(q, now, budget);
    assert TranslationService.Min(budget, |q|) == |q|;
    var k :| 0 <= k < TranslationService.Min(budget, |q|) && q[k].to == now && p.0.value == q[k].data;
    assert k == |s.queue|;
  }

  /** The translator a fold is built with when the worker serves the call:
      the arguments go out as a `t` command and the worker's answer comes back. */
  function ServedTranslator(s: TranslationService.Service, server: Worker.Server, now: int,
                            env: Worker.Env, budget: nat): Translator
  {
    (xs: seq<Argument>) =>
      TranslationService.Translate(s, WireAll(xs), now, WorkerReplies(server, WireAll(xs), now, env), budget).0
  }

  /** The served translator answers any arguments with the worker's text
      for their wire form. */
  lemma ServedTranslatorAnswers(s: TranslationService.Service, server: Worker.Server, xs: seq<Argument>,
                                now: int, env: Worker.Env, budget: nat)
    requires s.process.Some? && now != TranslationService.NoId
    requires NoStaleReply(s.queue, now)
    requires budget > |s.queue|
    ensures ServedTranslator(s, server, now, env, budget)(xs) == Ok(Some(Worker.TText(server, WireAll(xs), env)))
  {
    TranslateRoundTrip(s, server, WireAll(xs), now, env, budget);
  }

  /** A translation call with arguments folds exactly when the worker has
      an i18next instance knowing the key, and the fold then shows the
      translation wrapped in double quotes: the worker's quoting reaches
      the editor. */
  lemma CallFoldsToQuotedTranslation(call: Node, s: TranslationService.Service, server: Worker.Server,
                                     now: int, env: Worker.Env, budget: nat)
    requires IsTranslationCall(call) && call.shape.hasArgumentList && |call.shape.arguments| > 0
    requires s.process.Some? && now != TranslationService.NoId
    requires NoStaleReply(s.queue, now)
    requires budget > |s.queue|
    ensures var args := WireAll(CollectArguments(call.shape.arguments));
      var d := Process(call, ServedTranslator(s, server, now, env, budget));
      (d.Some? <==> server.i18n.Some? && env.keyExists(server.i18n.value, args))
      && (d.Some? ==> d.value.placeholder == "\"" + env.translate(server.i18n.value, args) + "\"")
  {
    var args := WireAll(CollectArguments(call.shape.arguments));
    ServedTranslatorAnswers(s, server, CollectArguments(call.shape.arguments), now, env, budget);
    var text := Worker.TText(server, args, env);
    if server.i18n.Some? && env.keyExists(server.i18n.value, args) {
      assert text == "\"" + env.translate(server.i18n.value, args) + "\"";
    }
  }

  /** The `setup` command the plugin sends configures the worker from the
      settings: when i18next loads and the folder can be scanned, the
      worker answers the command's timestamp with `undefined` and holds an
      instance whose language and default namespace are the settings'. */
  lemma SetupConfiguresWorker(s: TranslationService.Service, st: Settings.State, basePath: Option<string>,
                              stopAt: int, now: int, reloader: FoldingReloader.Reloader,
                              server: Worker.Server, env: Worker.Env)
    requires basePath.Some?
    requires env.hasI18next && env.readDir(st.multilingualFolder).Some?
    requires forall i :: 0 <= i < |env.readDir(st.multilingualFolder).value| ==>
      !Worker.Unreadable(env.readDir(st.multilingualFolder).value[i], Str(st.previewLanguage))
    ensures var sent := TranslationService.Setup(s, st, basePath, stopAt, now, reloader).service.sent;
      |sent| > 0 &&
      var (next, reply) := Worker.Dispatch(server, Some(sent[|sent| - 1]), env);
      reply == Some(TranslationService.Response(now, Undefined))
      && next.dir == Some(st.multilingualFolder) && next.i18n.Some?
      && next.i18n.value.lng == Str(st.previewLanguage)
      && next.i18n.value.fallbackLng == Str(st.previewLanguage)
      && next.i18n.value.defaultNS == Str(st.defaultNamespace)
  {
    assert Worker.ScanFolder(env.readDir(st.multilingualFolder).value, Str(st.previewLanguage)).Ok?;
  }
}
