/** The host's side of the worker protocol: commands written to the
    worker, the queue of responses read back, and the worker's lifecycle. */
module TranslationService {
  import opened Basics
  import Settings
  import FoldingReloader

  /** One line written to the worker. */
  datatype Command = Command(action: string, args: seq<Value>, timestamp: int)

  /** One line read back from the worker: the timestamp it answers and its data. */
  datatype Response = Response(to: int, data: Value)

  /** A running worker process, with its writer and reader, and the
      directory it was started in. */
  datatype Process = Process(cwd: string)

  /** The service: the worker if one runs, every command written so far in
      order, and the responses read but not yet taken. */
  datatype Service = Service(process: Option<Process>, sent: seq<Command>, queue: seq<Response>)

  const Initial: Service := Service(None, [], [])

  /** The id `invoke` returns when no worker runs. */
  const NoId: int := -1

  /** `invoke`: without a worker nothing is written and the result is
      `NoId`; otherwise exactly one command carrying the action, the
      arguments and the current time is written, and that time is returned. */
  function Invoke(s: Service, action: string, args: seq<Value>, now: int): (r: (Service, int))
    ensures s.process.None? ==> r == (s, NoId)
    ensures s.process.Some? ==> r.1 == now && r.0 == s.(sent := s.sent + [Command(action, args, now)])
  {
    if s.process.None? then (s, NoId)
    else (s.(sent := s.sent + [Command(action, args, now)]), now)
  }

  function Min(a: nat, b: nat): nat {
    if a <= b then a else b
  }

  /** What the polling loop promises for `queue`, `id` and `budget`: a
      result is the data of the first response within the budget that
      answers `id`, with everything up to it taken; no result means none
      within the budget answers `id`, and all of them are taken. */
  ghost predicate Polled(queue: seq<Response>, id: int, budget: nat, r: (Option<Value>, seq<Response>)) {
    (r.0.Some? ==>
      exists k :: 0 <= k < Min(budget, |queue|) && queue[k].to == id
        && (forall j :: 0 <= j < k ==> queue[j].to != id)
        && r.0.value == queue[k].data && r.1 == queue[k + 1..])
    && (r.0.None? ==>
      (forall j :: 0 <= j < Min(budget, |queue|) ==> queue[j].to != id) && r.1 == queue[Min(budget, |queue|)..])
  }

  /** Skipping a response that does not answer `id` keeps the promise. */
  lemma PollSkip(queue: seq<Response>, id: int, budget: nat, r: (Option<Value>, seq<Response>))
    requires budget > 0 && |queue| > 0 && queue[0].to != id
    requires Polled(queue[1..], id, budget - 1, r)
    ensures Polled(queue, id, budget, r)
  {
    assert forall j :: 0 < j < |queue| ==> queue[j] == queue[1..][j - 1];
    if r.0.Some? {
      var k :| 0 <= k < Min(budget - 1, |queue| - 1) && queue[1..][k].to == id
        && (forall j :: 0 <= j < k ==> queue[1..][j].to != id)
        && r.0.value == queue[1..][k].data && r.1 == queue[1..][k + 1..];
      assert queue[k + 1].to == id && queue[k + 2..] == queue[1..][k + 1..];
    } else {
      assert queue[1..][Min(budget - 1, |queue| - 1)..] == queue[Min(budget, |queue|)..];
    }
  }

  /** The polling loop of `fetchResult` with room for `budget` more polls:
      responses are taken off the front of the queue until one answers
      `id`, whose data is the result. Every response taken on the way is
      gone. The loop ends empty-handed when the budget is spent or the
      queue has nothing more. */
  function Poll(queue: seq<Response>, id: int, budget: nat): (r: (Option<Value>, seq<Response>))
    ensures r.0.Some? ==>
      exists k :: 0 <= k < Min(budget, |queue|) && queue[k].to == id
        && (forall j :: 0 <= j < k ==> queue[j].to != id)
        && r.0.value == queue[k].data && r.1 == queue[k + 1..]
    ensures r.0.None? ==>
      (forall j :: 0 <= j < Min(budget, |queue|) ==> queue[j].to != id) && r.1 == queue[Min(budget, |queue|)..]
    decreases budget
  {
    if budget == 0 || |queue| == 0 then (None, queue)
    else if queue[0].to == id then (Some(queue[0].data), queue[1..])
    else
      var r := Poll(queue[1..], id, budget - 1);
      PollSkip(queue, id, budget, r);
      r
  }

  /** `fetchResult`: for `NoId` nothing is taken and there is no result;
      otherwise the polling loop runs on the service's queue. */
  function FetchResult(s: Service, id: int, budget: nat): (r: (Option<Value>, Service))
    ensures id == NoId ==> r == (None, s)
    ensures r.1.process == s.process && r.1.sent == s.sent
    ensures id != NoId ==> r.0 == Poll(s.queue, id, budget).0 && r.1.queue == Poll(s.queue, id, budget).1
  {
    if id == NoId then (None, s)
    else
      var (data, rest) := Poll(s.queue, id, budget);
      (data, s.(queue := rest))
  }

  /** The responses the reader makes of the lines the worker prints, in
      line order; a line `parse` rejects is dropped. */
  function Parsed(parse: string -> Option<Response>, lines: seq<string>): (r: seq<Response>)
    ensures |r| <= |lines|
    ensures forall x :: x in r ==> exists i :: 0 <= i < |lines| && parse(lines[i]) == Some(x)
    ensures forall i :: 0 <= i < |lines| && parse(lines[i]).Some? ==> parse(lines[i]).value in r
  {
    if |lines| == 0 then []
    else
      var rest := Parsed(parse, lines[1..]);
      assert forall i :: 0 < i < |lines| ==> lines[i] == lines[1..][i - 1];
      match parse(lines[0])
      case Some(x) => [x] + rest
      case None => rest
  }

  /** Reading in pieces is reading all at once: the queue keeps line order. */
  lemma {:induction false} ParsedAppend(parse: string -> Option<Response>, a: seq<string>, b: seq<string>)
    ensures Parsed(parse, a + b) == Parsed(parse, a) + Parsed(parse, b)
  {
    if |a| == 0 {
      assert a + b == b;
    } else {
      assert (a + b)[0] == a[0];
      assert (a + b)[1..] == a[1..] + b;
      ParsedAppend(parse, a[1..], b);
    }
  }

  /** The reader thread delivering lines: parsed responses join the end of the queue. */
  function Receive(s: Service, parse: string -> Option<Response>, lines: seq<string>): (r: Service)
    ensures r.process == s.process && r.sent == s.sent
    ensures |r.queue| == |s.queue| + |Parsed(parse, lines)|
    ensures r.queue[..|s.queue|] == s.queue && r.queue[|s.queue|..] == Parsed(parse, lines)
  {
    s.(queue := s.queue + Parsed(parse, lines))
  }

  /** `start`: a no-op while a worker runs; otherwise a worker starts in
      `cwd`. The response queue is kept. */
  function Start(s: Service, cwd: string): (r: Service)
    ensures s.process.Some? ==> r == s
    ensures s.process.None? ==> r == s.(process := Some(Process(cwd)))
  {
    if s.process.Some? then s else s.(process := Some(Process(cwd)))
  }

  /** `stop`: `exit` is sent if a worker runs, then the worker, its writer
      and its reader are dropped. */
  function Stop(s: Service, now: int): (r: Service)
    ensures r.process.None? && r.queue == s.queue
    ensures s.process.Some? ==> r.sent == s.sent + [Command("exit", [], now)]
    ensures s.process.None? ==> r.sent == s.sent
  {
    Invoke(s, "exit", [], now).0.(process := None)
  }

  /** A fresh service has no worker: `invoke` writes nothing and returns
      `NoId`, and `translate` finds nothing. */
  lemma NothingBeforeStart(action: string, args: seq<Value>, now: int, incoming: seq<Response>, budget: nat)
    ensures Invoke(Initial, action, args, now) == (Initial, NoId)
    ensures Translate(Initial, args, now, incoming, budget).0 == Ok(None)
  {
  }

  /** After `stop`, `invoke` writes nothing and returns `NoId`. */
  lemma InvokeAfterStop(s: Service, stopAt: int, action: string, args: seq<Value>, now: int)
    ensures Invoke(Stop(s, stopAt), action, args, now) == (Stop(s, stopAt), NoId)
  {
  }

  /** The arguments of the `setup` command, in the worker's order. */
  function SetupArgs(st: Settings.State): seq<Value> {
    [Str(st.multilingualFolder), Str(st.previewLanguage), Str(st.defaultNamespace)]
  }

  /** How `setup` ends: it completes with a scheduled refresh, or the
      default argument of `start()` throws because the project has no base
      path, after `stop` has already run. */
  datatype SetupOutcome =
    | Completed(service: Service, reloader: FoldingReloader.Reloader)
    | StartFailed(service: Service)

  /** `setup`: stop, start afresh in the project's base directory, send
      `setup` with the folder, the language and the namespace, and
      schedule a fold refresh. Without a base path nothing after `stop`
      happens. */
  function Setup(s: Service, st: Settings.State, basePath: Option<string>, stopAt: int, now: int,
                 reloader: FoldingReloader.Reloader): (r: SetupOutcome)
    ensures r.StartFailed? <==> basePath.None?
    ensures r.service.queue == s.queue
    ensures basePath.Some? ==> r.service.process == Some(Process(basePath.value))
    ensures basePath.None? ==> r.service.process.None?
    ensures r.service.sent ==
      s.sent + (if s.process.Some? then [Command("exit", [], stopAt)] else [])
      + (if r.Completed? then [Command("setup", SetupArgs(st), now)] else [])
    ensures r.Completed? ==> r.reloader.pending == [FoldingReloader.DefaultDelayMs]
  {
    var stopped := Stop(s, stopAt);
    match basePath
    case None => StartFailed(stopped)
    case Some(cwd) =>
      var (s', _) := Invoke(Start(stopped, cwd), "setup", SetupArgs(st), now);
      Completed(s', FoldingReloader.ScheduleReload(reloader, FoldingReloader.DefaultDelayMs))
  }

  /** What `translate` makes of a response's data: a string is the
      translation, null is none, and anything else fails the cast to
      `String` at the call site and throws. */
  function AsTranslation(data: Option<Value>): (r: Try<Option<string>>)
    ensures r == Ok(None) <==> data.None? || data == Some(Null)
    ensures r.Ok? && r.value.Some? <==> data.Some? && data.value.Str?
    ensures r.Ok? && r.value.Some? ==> data == Some(Str(r.value.value))
  {
    match data
    case None => Ok(None)
    case Some(Null) => Ok(None)
    case Some(Str(x)) => Ok(Some(x))
    case Some(_) => Throws
  }

  /** `translate`: a `t` command, then `fetchResult` for its id over the
      queue with the responses the reader delivers while the caller waits. */
  function Translate(s: Service, args: seq<Value>, now: int, incoming: seq<Response>, budget: nat)
    : (r: (Try<Option<string>>, Service))
    ensures s.process.None? ==> r.0 == Ok(None) && r.1.sent == s.sent
    ensures s.process.Some? ==> r.1.sent == s.sent + [Command("t", args, now)]
    ensures r.1.process == s.process
    ensures now == NoId ==> r.0 == Ok(None)
    ensures s.process.Some? && now != NoId ==>
      var q := s.queue + incoming;
      r.0 == AsTranslation(Poll(q, now, budget).0) && r.1.queue == Poll(q, now, budget).1
  {
    var (s1, id) := Invoke(s, "t", args, now);
    var (data, s2) := FetchResult(s1.(queue := s1.queue + incoming), id, budget);
    (AsTranslation(data), s2)
  }

  /** Responses are not kept for other waiters: a reply that reaches the
      queue ahead of another caller's is taken and lost while that caller
      waits for its own id. */
  lemma MismatchedReplyIsLost(a: int, b: int, x: Value, y: Value, budget: nat)
    requires a != NoId && b != NoId && a != b && budget >= 2
    ensures var s := Service(Some(Process("")), [], [Response(b, x), Response(a, y)]);
      var (got, s') := FetchResult(s, a, budget);
      got == Some(y) && FetchResult(s', b, budget).0.None?
  {
    var q := [Response(b, x), Response(a, y)];
    assert q[1..][0] == Response(a, y);
  }
}
