/**
 How the payload-limits generator of crates/common/build.rs classifies fields, and which message
 types get an impl.
 */
module PayloadLimits {
  import opened Common
  import opened Descriptors
  import Search = GraphSearch
  import V = PayloadVisitor

  const MEMO: string := "temporal.api.common.v1.Memo"
  const HEADER: string := "temporal.api.common.v1.Header"
  const SEARCH_ATTRIBUTES: string := "temporal.api.common.v1.SearchAttributes"
  const FAILURE: string := "temporal.api.failure.v1.Failure"

  /** `TERMINAL_LEAVES`: measured at the parent field, never descended into. */
  predicate IsTerminal(t: string) {
    t in {PAYLOAD, PAYLOADS, MEMO, HEADER, SEARCH_ATTRIBUTES, FAILURE, ANY}
  }

  datatype LimitClass = Blob | Memo

  datatype Policy = Validated(limit: LimitClass, enforce: bool) | NotValidated

  type Table = map<string, Policy>

  datatype LeafKind =
    | SinglePayloads
    | SinglePayload
    | RepeatedPayload
    | SingleMemo
    | MemoFieldsDataSum
    | SingleHeader
    | SingleSearchAttributes
    | MapPayload
    | MapPayloads
    | WholeMessage
    | RepeatedWholeMessage

  datatype StructShape = OneStruct | RepeatedStruct | MapStruct

  /** `Panic`: the generator refuses a map of `Any`. */
  datatype Target = Leaf(kind: LeafKind) | Inner(shape: StructShape, t: string) | Skip | Panic

  function TerminalKind(t: string, repeated: bool): Option<LeafKind> {
    if t == PAYLOAD then Some(if repeated then RepeatedPayload else SinglePayload)
    else if t == PAYLOADS then Some(SinglePayloads)
    else if t == MEMO then Some(SingleMemo)
    else if t == HEADER then Some(SingleHeader)
    else if t == SEARCH_ATTRIBUTES then Some(SingleSearchAttributes)
    else if t == FAILURE || t == ANY then Some(if repeated then RepeatedWholeMessage else WholeMessage)
    else None
  }

  /** The list of types that are not descended into is the list of types that can be measured. */
  lemma TerminalIff(t: string, repeated: bool)
    ensures IsTerminal(t) <==> TerminalKind(t, repeated).Some?
  {
  }

  function Classify(yes: set<string>, msg: Descriptor, f: Field): Target {
    match V.FieldShape(yes, msg, f)
    case None => Skip
    case Some(Map(t)) =>
      if t == PAYLOAD then Leaf(MapPayload)
      else if t == PAYLOADS then Leaf(MapPayloads)
      else if t == ANY then Panic
      else Inner(MapStruct, t)
    case Some(Single(t)) =>
      var kind := TerminalKind(t, false);
      if kind.Some? then Leaf(kind.value) else Inner(OneStruct, t)
    case Some(Repeated(t)) =>
      var kind := TerminalKind(t, true);
      if kind.Some? then Leaf(kind.value) else Inner(RepeatedStruct, t)
  }

  // ----- which types get an impl -----

  /** What one field adds to the work stack of `limits_closure`. */
  function Enqueued(yes: set<string>, msg: Descriptor, f: Field): seq<string> {
    var target := Classify(yes, msg, f);
    if target.Inner? then [target.t]
    else if f.isMessage && OwnType(f) in yes && !IsTerminal(OwnType(f)) then [OwnType(f)]
    else []
  }

  /**
   A type that is expanded is reached by a field exactly if the field leads to it: as its own type, or
   as the type of the values of a map. The entry type of a map counts only where the values do not.
   */
  lemma EnqueuedIff(g: Graph, yes: set<string>, msg: Descriptor, f: Field, t: string)
    requires Expands(g, yes, t)
    ensures var target := FieldTarget(msg, f);
            t in Enqueued(yes, msg, f) <==>
            f.isMessage && (target == t || (OwnType(f) == t && (target !in yes || target in {PAYLOAD, PAYLOADS, ANY})))
  {
    TerminalIff(t, f.repeated);
    TerminalIff(t, false);
  }

  function EnqueuedUpTo(yes: set<string>, msg: Descriptor, k: nat): seq<string>
    requires k <= |msg.fields|
  {
    if k == 0 then [] else EnqueuedUpTo(yes, msg, k - 1) + Enqueued(yes, msg, msg.fields[k - 1])
  }

  /** One of the first `k` fields is a map of `Any`. */
  predicate PanicsUpTo(yes: set<string>, msg: Descriptor, k: nat)
    requires k <= |msg.fields|
  {
    k > 0 && (PanicsUpTo(yes, msg, k - 1) || Classify(yes, msg, msg.fields[k - 1]).Panic?)
  }

  predicate Panics(yes: set<string>, msg: Descriptor) {
    PanicsUpTo(yes, msg, |msg.fields|)
  }

  lemma {:induction false} PanicsLater(yes: set<string>, msg: Descriptor, i: nat, k: nat)
    requires i <= k <= |msg.fields| && PanicsUpTo(yes, msg, i)
    ensures PanicsUpTo(yes, msg, k)
    decreases k
  {
    if i < k { PanicsLater(yes, msg, i, k - 1); }
  }

  /** Only known, marked, non-terminal types are expanded. */
  predicate Expands(g: Graph, yes: set<string>, t: string) {
    t in g.messages && t in yes && !IsTerminal(t)
  }

  function StructGraph(g: Graph, yes: set<string>): Search.Graph<string> {
    Search.Graph(map t | t in g.messages && Expands(g, yes, t) ::
                   EnqueuedUpTo(yes, g.messages[t], |g.messages[t].fields|), {})
  }

  /** A chain of expandable types leads from a root to `t`. */
  ghost predicate InClosure(g: Graph, yes: set<string>, roots: seq<string>, t: string) {
    Expands(g, yes, t) && exists r :: r in roots && Search.Leads(StructGraph(g, yes), r, t)
  }

  /** Everything queued is a root or a successor of something kept; nothing kept is left out. */
  ghost predicate Exploring(g: Graph, yes: set<string>, roots: seq<string>, kept: set<string>, queue: seq<string>) {
    && (forall t :: t in kept ==> InClosure(g, yes, roots, t))
    && (forall t :: t in queue ==>
          t in roots || exists s :: s in kept && t in Search.Successors(StructGraph(g, yes), s))
    && (forall r :: r in roots ==> r in kept || r in queue || !Expands(g, yes, r))
    && (forall s, t :: s in kept && t in Search.Successors(StructGraph(g, yes), s) ==>
          t in kept || t in queue || !Expands(g, yes, t))
  }

  /**
   The worklist returns exactly the types that a chain of structural fields reaches from the
   roots, and panics exactly when one of them has a map of `Any`.
   */
  method LimitsClosure(g: Graph, yes: set<string>, roots: seq<string>) returns (closure: Option<set<string>>)
    ensures closure.None? <==> exists t :: InClosure(g, yes, roots, t) && Panics(yes, g.messages[t])
    ensures closure.Some? ==> forall t :: t in closure.value <==> InClosure(g, yes, roots, t)
  {
    var kept: set<string> := {};
    var queue := roots;
    while queue != []
      invariant Exploring(g, yes, roots, kept, queue)
      invariant forall t :: t in kept ==> t in g.messages && !Panics(yes, g.messages[t])
      decreases g.messages.Keys - kept, |queue|
    {
      var name := queue[|queue| - 1];
      var rest := queue[..|queue| - 1];
      if IsTerminal(name) || name in kept || name !in g.messages || name !in yes {
        SkipExploring(g, yes, roots, kept, queue);
        queue := rest;
      } else {
        var more := EnqueueFields(yes, g.messages[name]);
        PopIsReached(g, yes, roots, kept, queue);
        if more.None? { return None; }
        Popped(queue);
        KeepExploring(g, yes, roots, kept, queue, rest, name);
        kept := kept + {name};
        queue := rest + more.value;
      }
    }
    NothingLeftOut(g, yes, roots, kept);
    return Some(kept);
  }

  /** The loop over the fields of one popped message. */
  method EnqueueFields(yes: set<string>, msg: Descriptor) returns (more: Option<seq<string>>)
    ensures more.None? <==> Panics(yes, msg)
    ensures more.Some? ==> more.value == EnqueuedUpTo(yes, msg, |msg.fields|)
  {
    var queue := [];
    var i := 0;
    while i < |msg.fields|
      invariant 0 <= i <= |msg.fields|
      invariant queue == EnqueuedUpTo(yes, msg, i)
      invariant !PanicsUpTo(yes, msg, i)
    {
      var target := Classify(yes, msg, msg.fields[i]);
      if target.Panic? {
        PanicsLater(yes, msg, i + 1, |msg.fields|);
        return None;
      }
      queue := queue + Enqueued(yes, msg, msg.fields[i]);
      i := i + 1;
    }
    return Some(queue);
  }

  lemma LeadsStep(g: Search.Graph<string>, r: string, s: string, t: string)
    requires Search.Leads(g, r, s) && t in Search.Successors(g, s)
    ensures Search.Leads(g, r, t)
  {
    var p :| Search.Chain(g, p) && p[0] == r && p[|p| - 1] == s;
    Search.ChainAppend(g, p, t);
    assert (p + [t])[0] == r && (p + [t])[|p + [t]| - 1] == t;
  }

  lemma PopIsReached(g: Graph, yes: set<string>, roots: seq<string>, kept: set<string>, queue: seq<string>)
    requires Exploring(g, yes, roots, kept, queue) && queue != [] && Expands(g, yes, queue[|queue| - 1])
    ensures InClosure(g, yes, roots, queue[|queue| - 1])
  {
    var graph := StructGraph(g, yes);
    var name := queue[|queue| - 1];
    if name in roots {
      assert Search.Chain(graph, [name]) && [name][0] == name;
      assert Search.Leads(graph, name, name);
    } else {
      var s :| s in kept && name in Search.Successors(graph, s);
      assert InClosure(g, yes, roots, s);
      var r :| r in roots && Search.Leads(graph, r, s);
      LeadsStep(graph, r, s, name);
    }
  }

  lemma Popped<T>(queue: seq<T>)
    requires queue != []
    ensures queue == queue[..|queue| - 1] + [queue[|queue| - 1]]
  {
  }

  lemma SkipExploring(g: Graph, yes: set<string>, roots: seq<string>, kept: set<string>, queue: seq<string>)
    requires Exploring(g, yes, roots, kept, queue) && queue != []
    requires queue[|queue| - 1] in kept || !Expands(g, yes, queue[|queue| - 1])
    ensures Exploring(g, yes, roots, kept, queue[..|queue| - 1])
  {
    Popped(queue);
  }

  lemma KeepExploring(g: Graph, yes: set<string>, roots: seq<string>, kept: set<string>, queue: seq<string>,
                      rest: seq<string>, name: string)
    requires Exploring(g, yes, roots, kept, queue) && queue == rest + [name] && Expands(g, yes, name)
    requires InClosure(g, yes, roots, name)
    ensures Exploring(g, yes, roots, kept + {name},
                      rest + EnqueuedUpTo(yes, g.messages[name], |g.messages[name].fields|))
  {
    var graph := StructGraph(g, yes);
    var more := EnqueuedUpTo(yes, g.messages[name], |g.messages[name].fields|);
    assert Search.Successors(graph, name) == more;
    forall t | t in rest + more
      ensures t in roots || exists s :: s in kept + {name} && t in Search.Successors(graph, s)
    {
      if t in rest {
        assert t in rest + [name];
      } else {
        assert name in kept + {name};
      }
    }
  }

  lemma NothingLeftOut(g: Graph, yes: set<string>, roots: seq<string>, kept: set<string>)
    requires Exploring(g, yes, roots, kept, [])
    ensures forall t :: InClosure(g, yes, roots, t) ==> t in kept
  {
    var graph := StructGraph(g, yes);
    forall t | InClosure(g, yes, roots, t) ensures t in kept {
      var r :| r in roots && Search.Leads(graph, r, t);
      var p :| Search.Chain(graph, p) && p[0] == r && p[|p| - 1] == t;
      assert t in graph.edges;
      if |p| > 1 { assert p[1] in Search.Successors(graph, r); }
      assert Expands(g, yes, r);
      Search.ChainStaysInside(graph, kept, p);
    }
  }
}
