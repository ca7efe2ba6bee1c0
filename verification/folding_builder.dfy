/** The folding builder: every `t(...)` call in a source tree becomes a fold
    whose text is the call's translation. */
module FoldingBuilder {
  import opened Basics
  import opened Strings
  import opened Vfs

  /** A node of the parsed source: its text range, its source text and its shape. */
  datatype Node = Node(start: nat, end: nat, text: string, shape: Shape)

  /** The node shapes the builder distinguishes. A call records whether it
      has an argument list at all. */
  datatype Shape =
    | Literal(value: Value)
    | ObjectLiteral(properties: seq<Property>)
    | Reference(qualifier: Option<Node>, name: Option<string>)
    | Call(callee: Node, hasArgumentList: bool, arguments: seq<Node>)
    | Other(children: seq<Node>)

  /** A property of an object literal: its name and its value expression, if any. */
  datatype Property = Property(name: string, value: Option<Node>)

  /** What one argument of a translation call is sent as. */
  datatype Argument =
    | LiteralArg(value: Value)
    | ObjectArg(entries: seq<(string, Value)>)
    | TextArg(text: string)

  /** A folding descriptor: the folded range, the folding group's name and
      the text shown in place of the range. */
  datatype Descriptor = Descriptor(start: nat, end: nat, group: string, placeholder: string)

  /** The translation of one call's arguments, as the translation service
      delivers it; it may throw. */
  type Translator = seq<Argument> -> Try<Option<string>>

  /** The callee name that marks a translation call. */
  const TranslateName: string := "t"

  /** Translation folds are collapsed when first shown. */
  const CollapsedByDefault: bool := true

  /** A call whose callee is a reference named `t`, whatever its qualifier. */
  predicate IsTranslationCall(n: Node) {
    n.shape.Call? && n.shape.callee.shape.Reference? && n.shape.callee.shape.name == Some(TranslateName)
  }

  // ----- Arguments -----

  /** A property's value when it is a literal, null otherwise. */
  function PropertyValue(p: Property): Value {
    match p.value
    case Some(Node(_, _, _, Literal(v))) => v
    case _ => Null
  }

  /** `seen` followed by the names of `ps` it lacks, each once, in order
      of first occurrence. */
  function AddNames(seen: seq<string>, ps: seq<Property>): seq<string>
    decreases |ps|
  {
    if |ps| == 0 then seen
    else AddNames(if ps[0].name in seen then seen else seen + [ps[0].name], ps[1..])
  }

  /** The property names, each once, in order of first occurrence. */
  function DistinctNames(ps: seq<Property>): seq<string> {
    AddNames([], ps)
  }

  /** Some property of `ps` is named `k`. */
  predicate Named(ps: seq<Property>, k: string) {
    exists i :: 0 <= i < |ps| && ps[i].name == k
  }

  lemma {:induction false} AddNamesMembers(seen: seq<string>, ps: seq<Property>)
    ensures forall k :: k in AddNames(seen, ps) <==> k in seen || Named(ps, k)
    decreases |ps|
  {
    if |ps| > 0 {
      var seen' := if ps[0].name in seen then seen else seen + [ps[0].name];
      AddNamesMembers(seen', ps[1..]);
      forall k ensures Named(ps, k) <==> ps[0].name == k || Named(ps[1..], k)
      {
        if Named(ps, k) {
          var i :| 0 <= i < |ps| && ps[i].name == k;
          if i > 0 { assert ps[1..][i - 1].name == k; }
        }
        if Named(ps[1..], k) {
          var i :| 0 <= i < |ps[1..]| && ps[1..][i].name == k;
          assert ps[i + 1].name == k;
        }
      }
    }
  }

  /** `associate` as the fold it is: each property in turn is stored into
      the map built so far. */
  function AssociateInto(acc: seq<(string, Value)>, ps: seq<Property>): seq<(string, Value)>
    decreases |ps|
  {
    if |ps| == 0 then acc
    else AssociateInto(Put(acc, ps[0].name, PropertyValue(ps[0])), ps[1..])
  }

  lemma {:induction false} AssociateIntoShape(acc: seq<(string, Value)>, ps: seq<Property>)
    requires UniqueKeys(acc)
    ensures UniqueKeys(AssociateInto(acc, ps))
    ensures Keys(AssociateInto(acc, ps)) == AddNames(Keys(acc), ps)
    decreases |ps|
  {
    if |ps| > 0 {
      PutKeepsKeysUnique(acc, ps[0].name, PropertyValue(ps[0]));
      AssociateIntoShape(Put(acc, ps[0].name, PropertyValue(ps[0])), ps[1..]);
    }
  }

  /** `properties.associate { name to literal value }`: a map in which each
      property name appears once, in the order of first occurrence. */
  function Associate(ps: seq<Property>): (r: seq<(string, Value)>)
    ensures UniqueKeys(r)
    ensures Keys(r) == DistinctNames(ps)
  {
    AssociateIntoShape([], ps);
    AssociateInto([], ps)
  }

  /** Storing names that are not `k` leaves `k`'s entry alone. */
  lemma {:induction false} AssociateIntoElsewhere(acc: seq<(string, Value)>, ps: seq<Property>, k: string)
    requires forall i :: 0 <= i < |ps| ==> ps[i].name != k
    ensures Lookup(AssociateInto(acc, ps), k) == Lookup(acc, k)
    decreases |ps|
  {
    if |ps| > 0 {
      assert forall i :: 0 <= i < |ps[1..]| ==> ps[1..][i] == ps[i + 1];
      AssociateIntoElsewhere(Put(acc, ps[0].name, PropertyValue(ps[0])), ps[1..], k);
    }
  }

  lemma {:induction false} AssociateIntoLastWins(acc: seq<(string, Value)>, ps: seq<Property>, i: nat)
    requires i < |ps|
    requires forall j :: i < j < |ps| ==> ps[j].name != ps[i].name
    ensures Lookup(AssociateInto(acc, ps), ps[i].name) == Some(PropertyValue(ps[i]))
    decreases |ps|
  {
    var acc' := Put(acc, ps[0].name, PropertyValue(ps[0]));
    assert forall j :: 0 <= j < |ps[1..]| ==> ps[1..][j] == ps[j + 1];
    if i == 0 {
      AssociateIntoElsewhere(acc', ps[1..], ps[0].name);
    } else {
      AssociateIntoLastWins(acc', ps[1..], i - 1);
    }
  }

  /** A name maps to the value of its last occurrence: later properties
      with the same name overwrite earlier ones. */
  lemma AssociateLastWins(ps: seq<Property>, i: nat)
    requires i < |ps|
    requires forall j :: i < j < |ps| ==> ps[j].name != ps[i].name
    ensures Lookup(Associate(ps), ps[i].name) == Some(PropertyValue(ps[i]))
  {
    AssociateIntoLastWins([], ps, i);
  }

  /** The map's keys are exactly the property names. */
  lemma AssociateOnlyNames(ps: seq<Property>)
    ensures forall k :: k in Keys(Associate(ps)) <==> Named(ps, k)
  {
    AddNamesMembers([], ps);
  }

  /** One argument: a literal sends its value, an object literal its
      property map, anything else its source text. */
  function ArgumentOf(n: Node): Argument {
    match n.shape
    case Literal(v) => LiteralArg(v)
    case ObjectLiteral(ps) => ObjectArg(Associate(ps))
    case _ => TextArg(n.text)
  }

  /** `collectArguments`: one entry per argument, in order. */
  function CollectArguments(args: seq<Node>): (r: seq<Argument>)
    ensures |r| == |args|
    ensures forall i :: 0 <= i < |args| ==> r[i] == ArgumentOf(args[i])
  {
    if |args| == 0 then [] else [ArgumentOf(args[0])] + CollectArguments(args[1..])
  }

  // ----- The walk -----

  /** The translation calls at and below a node the walker enters, in
      visiting order: the node's own check runs before the walker goes down
      into its callee and then its arguments. */
  function Calls(n: Node): (r: seq<Node>)
    ensures forall c :: c in r ==> IsTranslationCall(c)
    decreases n, 1
  {
    (if IsTranslationCall(n) then [n] else []) + ChildCalls(n)
  }

  /** The translation calls strictly inside a node, in visiting order. */
  function ChildCalls(n: Node): (r: seq<Node>)
    ensures forall c :: c in r ==> IsTranslationCall(c)
    decreases n, 0
  {
    match n.shape
    case Literal(_) => []
    case ObjectLiteral(ps) => CallsInProperties(ps)
    case Reference(q, _) => if q.Some? then Calls(q.value) else []
    case Call(callee, _, args) => Calls(callee) + CallsInAll(args)
    case Other(cs) => CallsInAll(cs)
  }

  function CallsInAll(ns: seq<Node>): (r: seq<Node>)
    ensures forall c :: c in r ==> IsTranslationCall(c)
    decreases ns
  {
    if |ns| == 0 then [] else Calls(ns[0]) + CallsInAll(ns[1..])
  }

  function CallsInProperties(ps: seq<Property>): (r: seq<Node>)
    ensures forall c :: c in r ==> IsTranslationCall(c)
    decreases ps
  {
    if |ps| == 0 then []
    else (if ps[0].value.Some? then Calls(ps[0].value.value) else []) + CallsInProperties(ps[1..])
  }

  /** `node.accept` with the builder's visitor: the walk of the root's
      subtree happens inside the root's own `super.visitElement`, so the
      root is checked last, after every node below it. */
  function Walk(root: Node): seq<Node> {
    ChildCalls(root) + (if IsTranslationCall(root) then [root] else [])
  }

  /** `c` is `n` or a node inside it. */
  ghost predicate Occurs(c: Node, n: Node)
    decreases n, 1
  {
    c == n || OccursInside(c, n)
  }

  /** `c` is a node strictly inside `n`. */
  ghost predicate OccursInside(c: Node, n: Node)
    decreases n, 0
  {
    match n.shape
    case Literal(_) => false
    case ObjectLiteral(ps) => OccursInProperties(c, ps)
    case Reference(q, _) => q.Some? && Occurs(c, q.value)
    case Call(callee, _, args) => Occurs(c, callee) || OccursInAll(c, args)
    case Other(cs) => OccursInAll(c, cs)
  }

  ghost predicate OccursInAll(c: Node, ns: seq<Node>)
    decreases ns
  {
    |ns| > 0 && (Occurs(c, ns[0]) || OccursInAll(c, ns[1..]))
  }

  ghost predicate OccursInProperties(c: Node, ps: seq<Property>)
    decreases ps
  {
    |ps| > 0 && ((ps[0].value.Some? && Occurs(c, ps[0].value.value)) || OccursInProperties(c, ps[1..]))
  }

  /** Only translation calls of the tree are visited. */
  lemma {:induction false} CallsSound(n: Node)
    ensures forall c :: c in Calls(n) ==> IsTranslationCall(c) && Occurs(c, n)
    decreases n, 1
  {
    ChildCallsSound(n);
  }

  lemma {:induction false} ChildCallsSound(n: Node)
    ensures forall c :: c in ChildCalls(n) ==> IsTranslationCall(c) && OccursInside(c, n)
    decreases n, 0
  {
    match n.shape
    case Literal(_) =>
    case ObjectLiteral(ps) => CallsInPropertiesSound(ps);
    case Reference(q, _) => if q.Some? { CallsSound(q.value); }
    case Call(callee, _, args) => CallsSound(callee); CallsInAllSound(args);
    case Other(cs) => CallsInAllSound(cs);
  }

  lemma {:induction false} CallsInAllSound(ns: seq<Node>)
    ensures forall c :: c in CallsInAll(ns) ==> IsTranslationCall(c) && OccursInAll(c, ns)
    decreases ns
  {
    if |ns| > 0 {
      CallsSound(ns[0]);
      CallsInAllSound(ns[1..]);
    }
  }

  lemma {:induction false} CallsInPropertiesSound(ps: seq<Property>)
    ensures forall c :: c in CallsInProperties(ps) ==> IsTranslationCall(c) && OccursInProperties(c, ps)
    decreases ps
  {
    if |ps| > 0 {
      if ps[0].value.Some? { CallsSound(ps[0].value.value); }
      CallsInPropertiesSound(ps[1..]);
    }
  }

  /** Every translation call of the tree is visited. */
  lemma {:induction false} CallsComplete(c: Node, n: Node)
    requires IsTranslationCall(c) && Occurs(c, n)
    ensures c in Calls(n)
    decreases n, 1
  {
    if c != n {
      ChildCallsComplete(c, n);
    }
  }

  lemma {:induction false} ChildCallsComplete(c: Node, n: Node)
    requires IsTranslationCall(c) && OccursInside(c, n)
    ensures c in ChildCalls(n)
    decreases n, 0
  {
    match n.shape
    case ObjectLiteral(ps) => CallsInPropertiesComplete(c, ps);
    case Reference(q, _) => CallsComplete(c, q.value);
    case Call(callee, _, args) =>
      if Occurs(c, callee) { CallsComplete(c, callee); } else { CallsInAllComplete(c, args); }
    case Other(cs) => CallsInAllComplete(c, cs);
  }

  lemma {:induction false} CallsInAllComplete(c: Node, ns: seq<Node>)
    requires IsTranslationCall(c) && OccursInAll(c, ns)
    ensures c in CallsInAll(ns)
    decreases ns
  {
    if Occurs(c, ns[0]) { CallsComplete(c, ns[0]); } else { CallsInAllComplete(c, ns[1..]); }
  }

  lemma {:induction false} CallsInPropertiesComplete(c: Node, ps: seq<Property>)
    requires IsTranslationCall(c) && OccursInProperties(c, ps)
    ensures c in CallsInProperties(ps)
    decreases ps
  {
    if ps[0].value.Some? && Occurs(c, ps[0].value.value) {
      CallsComplete(c, ps[0].value.value);
    } else {
      CallsInPropertiesComplete(c, ps[1..]);
    }
  }

  /** Below the root a node is checked before its children: a translation
      call comes first in its own visiting order, ahead of every
      translation call nested inside it. */
  lemma EnclosingCallFirst(n: Node)
    requires IsTranslationCall(n)
    ensures |Calls(n)| > 0 && Calls(n)[0] == n
    ensures forall i :: 1 <= i < |Calls(n)| ==> OccursInside(Calls(n)[i], n)
  {
    ChildCallsSound(n);
    assert Calls(n)[1..] == ChildCalls(n);
    assert forall i :: 1 <= i < |Calls(n)| ==> Calls(n)[i] in ChildCalls(n);
  }

  /** The root itself is checked after everything below it. */
  lemma RootCheckedLast(root: Node)
    requires IsTranslationCall(root)
    ensures |Walk(root)| > 0 && Walk(root)[|Walk(root)| - 1] == root
    ensures forall i :: 0 <= i < |Walk(root)| - 1 ==> OccursInside(Walk(root)[i], root)
  {
    ChildCallsSound(root);
    assert Walk(root)[..|Walk(root)| - 1] == ChildCalls(root);
    assert forall i :: 0 <= i < |Walk(root)| - 1 ==> Walk(root)[i] in ChildCalls(root);
  }

  /** The example file `t("a", { n: t("b") })`: its callee, its two calls,
      the options literal and the file node around the outer call. */
  const ExampleCallee: Node := Node(0, 1, "t", Reference(None, Some(TranslateName)))
  const ExampleInner: Node := Node(12, 18, "t(\"b\")", Call(ExampleCallee, true, [Node(14, 17, "\"b\"", Literal(Str("b")))]))
  const ExampleOptions: Node := Node(7, 20, "{ n: t(\"b\") }", ObjectLiteral([Property("n", Some(ExampleInner))]))
  const ExampleOuter: Node := Node(0, 21, "", Call(ExampleCallee, true, [Node(2, 5, "\"a\"", Literal(Str("a"))), ExampleOptions]))
  const ExampleFile: Node := Node(0, 21, "", Other([ExampleOuter]))

  lemma ExampleInnerCalls()
    ensures Calls(ExampleInner) == [ExampleInner]
  {
    var b := Node(14, 17, "\"b\"", Literal(Str("b")));
    assert Calls(ExampleCallee) == [] && Calls(b) == [];
    assert CallsInAll([b]) == Calls(b) + CallsInAll([]);
  }

  lemma ExampleOptionsCalls()
    ensures Calls(ExampleOptions) == [ExampleInner]
  {
    ExampleInnerCalls();
    assert CallsInProperties([Property("n", Some(ExampleInner))]) == [ExampleInner] + CallsInProperties([]);
  }

  /** In a file holding `t("a", { n: t("b") })` the outer call is visited,
      and so translated, before the call nested in its options. */
  lemma OuterCallBeforeNested()
    ensures Walk(ExampleFile) == [ExampleOuter, ExampleInner]
  {
    ExampleOptionsCalls();
    var a := Node(2, 5, "\"a\"", Literal(Str("a")));
    var args := [a, ExampleOptions];
    assert Calls(ExampleCallee) == [] && Calls(a) == [];
    assert args[1..] == [ExampleOptions];
    assert CallsInAll(args[1..]) == Calls(ExampleOptions) + CallsInAll([]);
    assert CallsInAll(args) == Calls(a) + CallsInAll(args[1..]);
    assert Calls(ExampleOuter) == [ExampleOuter, ExampleInner];
    assert CallsInAll([ExampleOuter]) == Calls(ExampleOuter) + CallsInAll([]);
  }

  /** The walk finds exactly the translation calls of the tree. */
  lemma WalkFindsCalls(root: Node)
    ensures forall c :: c in Walk(root) <==> IsTranslationCall(c) && Occurs(c, root)
  {
    ChildCallsSound(root);
    forall c | IsTranslationCall(c) && Occurs(c, root) ensures c in Walk(root) {
      if c != root { ChildCallsComplete(c, root); }
    }
  }

  // ----- Descriptors -----

  /** The folding group name of a call starting at `offset`. */
  function GroupName(offset: nat): string {
    TranslationGroupPrefix + "-" + NatToString(offset)
  }

  /** Group names carry the translation prefix, and calls at different
      offsets get different groups. */
  lemma GroupNames(a: nat, b: nat)
    ensures StartsWith(GroupName(a), TranslationGroupPrefix)
    ensures a != b ==> GroupName(a) != GroupName(b)
  {
    var p := TranslationGroupPrefix + "-";
    assert GroupName(a)[..|TranslationGroupPrefix|] == TranslationGroupPrefix;
    if GroupName(a) == GroupName(b) {
      assert GroupName(a)[|p|..] == NatToString(a);
      assert GroupName(b)[|p|..] == NatToString(b);
      NatToStringInjective(a, b);
    }
  }

  /** `processTranslationCall`: a call without arguments, or whose
      translation throws, is missing, or is empty, gives no descriptor.
      Otherwise the descriptor spans from the first argument's start to
      the last argument's end, is grouped by the call's start offset and
      shows the translation. */
  function Process(call: Node, translate: Translator): (d: Option<Descriptor>)
    requires call.shape.Call?
    ensures d.Some? <==>
      call.shape.hasArgumentList && |call.shape.arguments| > 0
      && translate(CollectArguments(call.shape.arguments)).Ok?
      && translate(CollectArguments(call.shape.arguments)).value.Some?
      && translate(CollectArguments(call.shape.arguments)).value.value != ""
    ensures d.Some? ==>
      var args := call.shape.arguments;
      d.value.start == args[0].start && d.value.end == args[|args| - 1].end
      && d.value.group == GroupName(call.start)
      && translate(CollectArguments(args)) == Ok(Some(d.value.placeholder))
  {
    var args := call.shape.arguments;
    if !call.shape.hasArgumentList || |args| == 0 then None
    else
      match translate(CollectArguments(args))
      case Throws => None
      case Ok(None) => None
      case Ok(Some(text)) =>
        if text == "" then None
        else Some(Descriptor(args[0].start, args[|args| - 1].end, GroupName(call.start), text))
  }

  /** The descriptors of the visited calls, in visiting order. */
  function DescriptorsOf(calls: seq<Node>, translate: Translator): (r: seq<Descriptor>)
    requires forall c :: c in calls ==> c.shape.Call?
    ensures |r| <= |calls|
    ensures forall d {:trigger d in r} :: d in r ==> exists c :: c in calls && Process(c, translate) == Some(d)
    ensures forall c {:trigger c in calls} :: c in calls && Process(c, translate).Some? ==> Process(c, translate).value in r
  {
    if |calls| == 0 then []
    else
      var rest := DescriptorsOf(calls[1..], translate);
      assert forall c :: c in calls[1..] ==> c in calls;
      assert forall c :: c in calls ==> c == calls[0] || c in calls[1..];
      match Process(calls[0], translate)
      case Some(d) => [d] + rest
      case None => rest
  }

  /** `buildFoldRegions`: nothing in quick mode; otherwise one descriptor
      for each translation call of the tree that `Process` accepts, in
      visiting order. */
  function BuildFoldRegions(root: Node, quick: bool, translate: Translator): (r: seq<Descriptor>)
    ensures quick ==> r == []
    ensures forall d :: d in r ==>
      exists c :: IsTranslationCall(c) && Occurs(c, root) && Process(c, translate) == Some(d)
    ensures !quick ==> forall c :: IsTranslationCall(c) && Occurs(c, root) && Process(c, translate).Some? ==>
      Process(c, translate).value in r
  {
    WalkFindsCalls(root);
    if quick then []
    else DescriptorsOf(Walk(root), translate)
  }

  /** The descriptors of two runs of calls are those of the first run
      followed by those of the second. */
  lemma {:induction false} DescriptorsOfAppend(a: seq<Node>, b: seq<Node>, translate: Translator)
    requires forall c :: c in a ==> c.shape.Call?
    requires forall c :: c in b ==> c.shape.Call?
    ensures DescriptorsOf(a + b, translate) == DescriptorsOf(a, translate) + DescriptorsOf(b, translate)
  {
    if |a| == 0 {
      assert a + b == b;
    } else {
      var ab := a + b;
      assert ab[0] == a[0];
      assert ab[1..] == a[1..] + b;
      DescriptorsOfAppend(a[1..], b, translate);
      match Process(a[0], translate)
      case Some(d) =>
        var x, y := DescriptorsOf(a[1..], translate), DescriptorsOf(b, translate);
        assert DescriptorsOf(a, translate) == [d] + x;
        assert DescriptorsOf(ab, translate) == [d] + (x + y);
        ConsAppend(d, x, y);
      case None =>
        assert DescriptorsOf(a, translate) == DescriptorsOf(a[1..], translate);
        assert DescriptorsOf(ab, translate) == DescriptorsOf(ab[1..], translate);
    }
  }

  /** One visited call gives its own descriptor, or nothing. */
  lemma DescriptorsOfOne(c: Node, translate: Translator)
    requires c.shape.Call?
    ensures DescriptorsOf([c], translate)
      == (if Process(c, translate).Some? then [Process(c, translate).value] else [])
  {
  }

  /** A visited call's descriptor comes after those of the calls visited
      before it and before those of the calls visited after it. */
  lemma DescriptorsAround(calls: seq<Node>, translate: Translator, j: nat)
    requires forall c :: c in calls ==> c.shape.Call?
    requires j < |calls|
    ensures DescriptorsOf(calls, translate)
      == DescriptorsOf(calls[..j], translate) + DescriptorsOf([calls[j]], translate) + DescriptorsOf(calls[j + 1..], translate)
  {
    var front, back := calls[..j], calls[j + 1..];
    SplitAt(calls, j);
    DescriptorsOfAppend([calls[j]], back, translate);
    DescriptorsOfAppend(front, [calls[j]] + back, translate);
    AppendAssoc(DescriptorsOf(front, translate), DescriptorsOf([calls[j]], translate), DescriptorsOf(back, translate));
  }

  /** A root that is itself an accepted call gets the last descriptor,
      after those of the calls strictly inside it, in visiting order. */
  lemma RootRegionLast(root: Node, translate: Translator)
    requires IsTranslationCall(root) && Process(root, translate).Some?
    ensures forall c :: c in ChildCalls(root) ==> OccursInside(c, root)
    ensures BuildFoldRegions(root, false, translate)
      == DescriptorsOf(ChildCalls(root), translate) + [Process(root, translate).value]
  {
    ChildCallsSound(root);
    DescriptorsOfAppend(ChildCalls(root), [root], translate);
    DescriptorsOfOne(root, translate);
  }

  /** In the file `t("a", { n: t("b") })` the outer call's descriptor
      comes before the nested call's. */
  lemma ExampleRegionsInOrder(translate: Translator)
    ensures BuildFoldRegions(ExampleFile, false, translate)
      == DescriptorsOf([ExampleOuter], translate) + DescriptorsOf([ExampleInner], translate)
  {
    OuterCallBeforeNested();
    assert [ExampleOuter, ExampleInner] == [ExampleOuter] + [ExampleInner];
    DescriptorsOfAppend([ExampleOuter], [ExampleInner], translate);
  }

  /** When both calls of that file are accepted, its folds are exactly
      theirs, the outer call's first. */
  lemma ExampleRegionsBothShown(translate: Translator)
    requires Process(ExampleOuter, translate).Some? && Process(ExampleInner, translate).Some?
    ensures BuildFoldRegions(ExampleFile, false, translate)
      == [Process(ExampleOuter, translate).value, Process(ExampleInner, translate).value]
  {
    ExampleRegionsInOrder(translate);
    DescriptorsOfOne(ExampleOuter, translate);
    DescriptorsOfOne(ExampleInner, translate);
  }

  /** The region an editor shows for a descriptor: collapsed unless shown
      otherwise, and in the translation group. */
  function RegionOf(d: Descriptor): (g: Region)
    ensures g.start == d.start && g.end == d.end
    ensures IsTranslationRegion(g) <==> StartsWith(d.group, TranslationGroupPrefix)
    ensures !g.expanded
  {
    Region(d.start, d.end, Some(d.group), !CollapsedByDefault)
  }

  /** Every fold the builder makes starts collapsed and is one the caret
      rule and the refresh act on. */
  lemma BuiltRegionsAreTranslationRegions(root: Node, translate: Translator)
    ensures forall d :: d in BuildFoldRegions(root, false, translate) ==>
      IsTranslationRegion(RegionOf(d)) && !RegionOf(d).expanded
  {
    forall d | d in BuildFoldRegions(root, false, translate)
      ensures StartsWith(d.group, TranslationGroupPrefix)
    {
      var c :| IsTranslationCall(c) && Occurs(c, root) && Process(c, translate) == Some(d);
      GroupNames(c.start, c.start);
    }
  }
}
