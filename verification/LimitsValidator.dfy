/**
 The generated payload-limits validators: what `generate_limits_impl` emits for a message type,
 the gates that make the policy table cover every leaf field, and the meaning of the emitted
 code as calls on a sink.
 */
module LimitsValidator {
  import opened Common
  import opened Descriptors
  import opened MessageTree
  import opened PayloadLimits
  import Search = GraphSearch
  import PayloadReach
  import V = PayloadVisitor

  /** One emitted `sink.check(...)`; the size expression is identified by its kind. */
  datatype Check = Check(field: string, limit: LimitClass, kind: LeafKind, enforce: bool)

  datatype ArmAction = ArmCheck(c: Check) | ArmNothing | ArmDescend(field: string)

  datatype Arm = Arm(slot: nat, action: ArmAction)

  datatype Stmt =
    | CheckIfSet(slot: nat, c: Check)
    | CheckAlways(slot: nat, c: Check)
    | Descend(slot: nat, field: string, shape: StructShape)
    | MatchOneof(index: nat, arms: seq<Arm>, total: nat)

  function EffectiveKind(kind: LeafKind, limit: LimitClass): LeafKind {
    if kind == SingleMemo && limit == Blob then MemoFieldsDataSum else kind
  }

  /** Kinds whose check sits behind `if let Some(inner)`. */
  predicate Guarded(kind: LeafKind) {
    !kind.RepeatedPayload? && !kind.RepeatedWholeMessage? && !kind.MapPayload? && !kind.MapPayloads?
  }

  function LeafCheck(table: Table, path: string, field: string, kind: LeafKind): Option<Check> {
    if path in table && table[path].Validated? then
      Some(Check(field, table[path].limit, EffectiveKind(kind, table[path].limit), table[path].enforce))
    else None
  }

  /** A message type as the generator sees it: its name, its descriptor and its classified fields. */
  datatype Type = Type(name: string, msg: Descriptor, targets: seq<Target>)

  function Classified(yes: set<string>, name: string, msg: Descriptor): Type {
    Type(name, msg, seq(|msg.fields|, k requires 0 <= k < |msg.fields| => Classify(yes, msg, msg.fields[k])))
  }

  predicate Matched(t: Type) { |t.targets| == |t.msg.fields| }

  function PathAt(t: Type, k: nat): string
    requires Matched(t) && k < |t.targets|
  {
    FieldPath(t.name, t.msg.fields[k].name)
  }

  /** The statement for a field outside every oneof. */
  function FieldBody(table: Table, t: Type, k: nat): seq<Stmt>
    requires Matched(t) && k < |t.targets|
  {
    var f := t.msg.fields[k];
    match t.targets[k]
    case Leaf(kind) =>
      var c := LeafCheck(table, PathAt(t, k), f.name, kind);
      if c.None? then []
      else if Guarded(c.value.kind) then [CheckIfSet(k, c.value)]
      else [CheckAlways(k, c.value)]
    case Inner(shape, _) => [Descend(k, f.name, shape)]
    case Skip => []
    case Panic => []
  }

  function RegularBody(table: Table, t: Type, k: nat): seq<Stmt>
    requires Matched(t) && k <= |t.targets|
  {
    if k == 0 then []
    else if t.msg.fields[k - 1].oneofIndex.Some? then RegularBody(table, t, k - 1)
    else RegularBody(table, t, k - 1) + FieldBody(table, t, k - 1)
  }

  function ArmFor(table: Table, t: Type, k: nat): Arm
    requires Matched(t) && k < |t.targets|
  {
    var f := t.msg.fields[k];
    match t.targets[k]
    case Leaf(kind) =>
      var c := LeafCheck(table, PathAt(t, k), f.name, kind);
      Arm(k, if c.None? then ArmNothing else ArmCheck(c.value))
    case _ => Arm(k, ArmDescend(f.name))
  }

  predicate IsArm(t: Type, o: nat, k: nat)
    requires Matched(t) && k < |t.targets|
  {
    t.msg.fields[k].oneofIndex == Some(o) && !t.targets[k].Skip?
  }

  /** The arms for the payload-bearing members of oneof `o`. */
  function Arms(table: Table, t: Type, o: nat, k: nat): seq<Arm>
    requires Matched(t) && k <= |t.targets|
  {
    if k == 0 then []
    else if IsArm(t, o, k - 1) then Arms(table, t, o, k - 1) + [ArmFor(table, t, k - 1)]
    else Arms(table, t, o, k - 1)
  }

  function OneofBody(table: Table, t: Type, o: nat): seq<Stmt>
    requires Matched(t) && o <= |t.msg.oneofs|
  {
    if o == 0 then []
    else
      var arms := Arms(table, t, o - 1, |t.targets|);
      if arms == [] then OneofBody(table, t, o - 1)
      else OneofBody(table, t, o - 1) + [MatchOneof(o - 1, arms, V.GroupSize(t.msg, o - 1, |t.msg.fields|))]
  }

  function Body(table: Table, t: Type): seq<Stmt>
    requires Matched(t)
  {
    RegularBody(table, t, |t.targets|) + OneofBody(table, t, |t.msg.oneofs|)
  }

  // ----- generation and its two gates -----

  /** The table keys met so far, and the leaf paths the table does not have. */
  datatype Seen = Seen(used: set<string>, unclassified: seq<string>)

  /** `leaf_class`, the side effect of looking one leaf up. */
  function Look(table: Table, s: Seen, path: string): Seen {
    if path in table then s.(used := s.used + {path}) else s.(unclassified := s.unclassified + [path])
  }

  function LookAll(table: Table, s: Seen, paths: seq<string>): Seen
    decreases |paths|
  {
    if paths == [] then s else Look(table, LookAll(table, s, paths[..|paths| - 1]), paths[|paths| - 1])
  }

  /** The leaf paths of one group of fields: the regular ones, or a oneof. */
  function GroupPaths(t: Type, group: Option<nat>, k: nat): seq<string>
    requires Matched(t) && k <= |t.targets|
  {
    if k == 0 then []
    else if t.msg.fields[k - 1].oneofIndex == group && t.targets[k - 1].Leaf? then
      GroupPaths(t, group, k - 1) + [PathAt(t, k - 1)]
    else GroupPaths(t, group, k - 1)
  }

  function OneofPaths(t: Type, o: nat): seq<string>
    requires Matched(t) && o <= |t.msg.oneofs|
  {
    if o == 0 then [] else OneofPaths(t, o - 1) + GroupPaths(t, Some(o - 1), |t.targets|)
  }

  /** The leaf paths looked up while generating one impl, in order. */
  function PathsOf(t: Type): seq<string>
    requires Matched(t)
  {
    GroupPaths(t, None, |t.targets|) + OneofPaths(t, |t.msg.oneofs|)
  }

  lemma LookOne(table: Table, s: Seen, paths: seq<string>, path: string)
    ensures LookAll(table, s, paths + [path]) == Look(table, LookAll(table, s, paths), path)
  {
    assert (paths + [path])[..|paths|] == paths;
  }

  lemma {:induction false} LookConcat(table: Table, s: Seen, a: seq<string>, b: seq<string>)
    ensures LookAll(table, s, a + b) == LookAll(table, LookAll(table, s, a), b)
    decreases |b|
  {
    if b == [] {
      assert a + b == a;
    } else {
      var c := b[..|b| - 1];
      assert a + b == (a + c) + [b[|b| - 1]];
      LookOne(table, s, a + c, b[|b| - 1]);
      LookConcat(table, s, a, c);
    }
  }

  lemma {:induction false} LookedUp(table: Table, s: Seen, paths: seq<string>)
    ensures var r := LookAll(table, s, paths);
            && (forall p :: p in r.used <==> p in s.used || (p in paths && p in table))
            && (forall p :: p in r.unclassified <==> p in s.unclassified || (p in paths && p !in table))
    decreases |paths|
  {
    if paths != [] { LookedUp(table, s, paths[..|paths| - 1]); }
  }

  /** The first loop of `generate_limits_impl`: the fields outside the oneofs. */
  method GenerateRegular(table: Table, t: Type, before: Seen) returns (body: seq<Stmt>, now: Seen)
    requires Matched(t)
    ensures body == RegularBody(table, t, |t.targets|)
    ensures now == LookAll(table, before, GroupPaths(t, None, |t.targets|))
  {
    body, now := [], before;
    var k := 0;
    while k < |t.targets|
      invariant 0 <= k <= |t.targets|
      invariant body == RegularBody(table, t, k)
      invariant now == LookAll(table, before, GroupPaths(t, None, k))
    {
      if t.msg.fields[k].oneofIndex.None? {
        body := body + FieldBody(table, t, k);
        if t.targets[k].Leaf? {
          LookOne(table, before, GroupPaths(t, None, k), PathAt(t, k));
          now := Look(table, now, PathAt(t, k));
        }
      }
      k := k + 1;
    }
  }

  method GenerateArms(table: Table, t: Type, o: nat, before: Seen) returns (arms: seq<Arm>, now: Seen)
    requires Matched(t)
    ensures arms == Arms(table, t, o, |t.targets|)
    ensures now == LookAll(table, before, GroupPaths(t, Some(o), |t.targets|))
  {
    arms, now := [], before;
    var k := 0;
    while k < |t.targets|
      invariant 0 <= k <= |t.targets|
      invariant arms == Arms(table, t, o, k)
      invariant now == LookAll(table, before, GroupPaths(t, Some(o), k))
    {
      if IsArm(t, o, k) {
        arms := arms + [ArmFor(table, t, k)];
        if t.targets[k].Leaf? {
          LookOne(table, before, GroupPaths(t, Some(o), k), PathAt(t, k));
          now := Look(table, now, PathAt(t, k));
        }
      }
      k := k + 1;
    }
  }

  method GenerateOneofs(table: Table, t: Type, before: Seen) returns (body: seq<Stmt>, now: Seen)
    requires Matched(t)
    ensures body == OneofBody(table, t, |t.msg.oneofs|)
    ensures now == LookAll(table, before, OneofPaths(t, |t.msg.oneofs|))
  {
    body, now := [], before;
    var o := 0;
    while o < |t.msg.oneofs|
      invariant 0 <= o <= |t.msg.oneofs|
      invariant body == OneofBody(table, t, o)
      invariant now == LookAll(table, before, OneofPaths(t, o))
    {
      var arms;
      arms, now := GenerateArms(table, t, o, now);
      LookConcat(table, before, OneofPaths(t, o), GroupPaths(t, Some(o), |t.targets|));
      if arms != [] {
        body := body + [MatchOneof(o, arms, V.GroupSize(t.msg, o, |t.msg.fields|))];
      }
      o := o + 1;
    }
  }

  /** `generate_limits_impl`: the emitted body, and every leaf of the type looked up on the way. */
  method GenerateImpl(table: Table, t: Type, before: Seen) returns (body: seq<Stmt>, now: Seen)
    requires Matched(t)
    ensures body == Body(table, t)
    ensures now == LookAll(table, before, PathsOf(t))
  {
    body, now := GenerateRegular(table, t, before);
    var oneofs;
    oneofs, now := GenerateOneofs(table, t, now);
    LookConcat(table, before, GroupPaths(t, None, |t.targets|), OneofPaths(t, |t.msg.oneofs|));
    body := body + oneofs;
  }

  /** A oneof member is classified the way the oneof loop of the source decides it. */
  lemma OneofMembersClassify(yes: set<string>, name: string, msg: Descriptor, o: nat, k: nat)
    requires WellFormed(msg) && k < |msg.fields| && msg.fields[k].oneofIndex == Some(o)
    ensures var t := Classified(yes, name, msg); var f := msg.fields[k];
            && (IsArm(t, o, k) <==> V.IsVariant(yes, f, o))
            && (IsArm(t, o, k) ==>
                  match TerminalKind(OwnType(f), false)
                  case Some(kind) => t.targets[k] == Leaf(kind)
                  case None => t.targets[k] == Inner(OneStruct, OwnType(f)))
  {
    assert FieldOk(msg, msg.fields[k]);
  }

  /** `path` names a leaf field of the message. */
  ghost predicate IsLeafPath(t: Type, path: string)
    requires Matched(t)
  {
    exists k :: 0 <= k < |t.targets| && t.targets[k].Leaf? && path == PathAt(t, k)
  }

  lemma {:induction false} GroupPathOf(t: Type, group: Option<nat>, n: nat, path: string) returns (k: nat)
    requires Matched(t) && n <= |t.targets| && path in GroupPaths(t, group, n)
    ensures k < n && t.targets[k].Leaf? && path == PathAt(t, k)
    decreases n
  {
    if t.msg.fields[n - 1].oneofIndex == group && t.targets[n - 1].Leaf? && path == PathAt(t, n - 1) {
      k := n - 1;
    } else {
      k := GroupPathOf(t, group, n - 1, path);
    }
  }

  lemma {:induction false} GroupPathListed(t: Type, n: nat, k: nat)
    requires Matched(t) && k < n <= |t.targets| && t.targets[k].Leaf?
    ensures PathAt(t, k) in GroupPaths(t, t.msg.fields[k].oneofIndex, n)
    decreases n
  {
    if k < n - 1 { GroupPathListed(t, n - 1, k); }
  }

  lemma {:induction false} OneofPathOf(t: Type, n: nat, path: string)
    requires Matched(t) && n <= |t.msg.oneofs| && path in OneofPaths(t, n)
    ensures IsLeafPath(t, path)
    decreases n
  {
    if path in GroupPaths(t, Some(n - 1), |t.targets|) {
      var k := GroupPathOf(t, Some(n - 1), |t.targets|, path);
    } else {
      OneofPathOf(t, n - 1, path);
    }
  }

  lemma {:induction false} OneofPathListed(t: Type, n: nat, o: nat, path: string)
    requires Matched(t) && o < n <= |t.msg.oneofs| && path in GroupPaths(t, Some(o), |t.targets|)
    ensures path in OneofPaths(t, n)
    decreases n
  {
    if o < n - 1 { OneofPathListed(t, n - 1, o, path); }
  }

  /** Exactly the leaf fields are looked up. */
  lemma PathsAreLeaves(t: Type, path: string)
    requires Matched(t) && WellFormed(t.msg)
    ensures path in PathsOf(t) <==> IsLeafPath(t, path)
  {
    if path in GroupPaths(t, None, |t.targets|) {
      var k := GroupPathOf(t, None, |t.targets|, path);
    } else if path in OneofPaths(t, |t.msg.oneofs|) {
      OneofPathOf(t, |t.msg.oneofs|, path);
    }
    if IsLeafPath(t, path) {
      var k :| 0 <= k < |t.targets| && t.targets[k].Leaf? && path == PathAt(t, k);
      GroupPathListed(t, |t.targets|, k);
      assert FieldOk(t.msg, t.msg.fields[k]);
      if t.msg.fields[k].oneofIndex.Some? {
        OneofPathListed(t, |t.msg.oneofs|, t.msg.fields[k].oneofIndex.value, path);
      }
    }
  }

  ghost predicate IsLeafOfAny(types: seq<Type>, path: string)
    requires forall t :: t in types ==> Matched(t)
  {
    exists t :: t in types && IsLeafPath(t, path)
  }

  /** The leaf paths of the first `k` types, in the order they are looked up. */
  function AllPaths(types: seq<Type>, k: nat): seq<string>
    requires (forall t :: t in types ==> Matched(t)) && k <= |types|
    decreases k
  {
    if k == 0 then [] else AllPaths(types, k - 1) + PathsOf(types[k - 1])
  }

  lemma {:induction false} PathOfSome(types: seq<Type>, k: nat, path: string) returns (i: nat)
    requires (forall t :: t in types ==> Matched(t)) && k <= |types| && path in AllPaths(types, k)
    ensures i < k && path in PathsOf(types[i])
    decreases k
  {
    if path in PathsOf(types[k - 1]) { i := k - 1; } else { i := PathOfSome(types, k - 1, path); }
  }

  lemma {:induction false} PathListed(types: seq<Type>, k: nat, i: nat, path: string)
    requires (forall t :: t in types ==> Matched(t)) && i < k <= |types| && path in PathsOf(types[i])
    ensures path in AllPaths(types, k)
    decreases k
  {
    if i < k - 1 { PathListed(types, k - 1, i, path); }
  }

  lemma AllPathsAre(types: seq<Type>, path: string)
    requires forall t :: t in types ==> Matched(t) && WellFormed(t.msg)
    ensures path in AllPaths(types, |types|) <==> IsLeafOfAny(types, path)
  {
    if path in AllPaths(types, |types|) {
      var i := PathOfSome(types, |types|, path);
      assert types[i] in types;
      PathsAreLeaves(types[i], path);
    }
    if IsLeafOfAny(types, path) {
      var t :| t in types && IsLeafPath(t, path);
      var i :| 0 <= i < |types| && types[i] == t;
      PathsAreLeaves(t, path);
      PathListed(types, |types|, i, path);
    }
  }

  /** Nothing is unclassified and no key of the table is unused. */
  predicate GatesPass(table: Table, seen: Seen) { seen.unclassified == [] && table.Keys <= seen.used }

  lemma GatesPassPaths(table: Table, paths: seq<string>)
    ensures GatesPass(table, LookAll(table, Seen({}, []), paths)) <==> forall p :: p in table <==> p in paths
  {
    var seen := LookAll(table, Seen({}, []), paths);
    LookedUp(table, Seen({}, []), paths);
    if seen.unclassified != [] { assert seen.unclassified[0] in seen.unclassified; }
  }

  /**
   The build passes both gates if and only if the table's keys are exactly the leaf paths of
   the types that get an impl.
   */
  lemma GatesPassIff(table: Table, types: seq<Type>)
    requires forall t :: t in types ==> Matched(t) && WellFormed(t.msg)
    ensures GatesPass(table, LookAll(table, Seen({}, []), AllPaths(types, |types|))) <==>
            forall p :: p in table <==> IsLeafOfAny(types, p)
  {
    GatesPassPaths(table, AllPaths(types, |types|));
    forall p ensures p in AllPaths(types, |types|) <==> IsLeafOfAny(types, p) { AllPathsAre(types, p); }
  }

  function ImplBodies(table: Table, types: seq<Type>, k: nat): (r: seq<seq<Stmt>>)
    requires (forall t :: t in types ==> Matched(t)) && k <= |types|
    ensures |r| == k
    decreases k
  {
    if k == 0 then [] else ImplBodies(table, types, k - 1) + [Body(table, types[k - 1])]
  }

  lemma {:induction false} ImplBodyAt(table: Table, types: seq<Type>, k: nat, i: nat)
    requires (forall t :: t in types ==> Matched(t)) && i < k <= |types|
    ensures ImplBodies(table, types, k)[i] == Body(table, types[i])
    decreases k
  {
    if i < k - 1 { ImplBodyAt(table, types, k - 1, i); }
  }

  /** The loop over the types that get an impl, and the two gates. */
  method GenerateAll(table: Table, types: seq<Type>) returns (bodies: seq<seq<Stmt>>, accepted: bool)
    requires forall t :: t in types ==> Matched(t) && WellFormed(t.msg)
    ensures |bodies| == |types| && forall i :: 0 <= i < |types| ==> bodies[i] == Body(table, types[i])
    ensures accepted <==> forall p :: p in table <==> IsLeafOfAny(types, p)
  {
    var seen;
    bodies, seen := GenerateBodies(table, types);
    accepted := seen.unclassified == [] && table.Keys <= seen.used;
    GatesPassIff(table, types);
    forall i | 0 <= i < |types| ensures bodies[i] == Body(table, types[i]) {
      ImplBodyAt(table, types, |types|, i);
    }
  }

  method GenerateBodies(table: Table, types: seq<Type>) returns (bodies: seq<seq<Stmt>>, seen: Seen)
    requires forall t :: t in types ==> Matched(t)
    ensures bodies == ImplBodies(table, types, |types|)
    ensures seen == LookAll(table, Seen({}, []), AllPaths(types, |types|))
  {
    seen := Seen({}, []);
    ghost var start := seen;
    bodies := [];
    var i := 0;
    while i < |types|
      invariant 0 <= i <= |types|
      invariant bodies == ImplBodies(table, types, i)
      invariant seen == LookAll(table, start, AllPaths(types, i))
    {
      var body;
      LookConcat(table, start, AllPaths(types, i), PathsOf(types[i]));
      body, seen := GenerateImpl(table, types[i], seen);
      bodies := bodies + [body];
      i := i + 1;
    }
  }

  // ----- the meaning of the emitted code -----

  datatype Indexer = NoIndex | Index(n: nat) | Key(key: string)

  datatype Segment = Segment(field: string, indexer: Indexer)

  /** A check as the sink sees it: where it happened and which content was measured. */
  datatype Event = Event(at: seq<Segment>, c: Check, measured: Value)

  datatype Sink = Sink(stack: seq<Segment>, events: seq<Event>)

  function Enter(s: Sink, field: string, indexer: Indexer): Sink {
    s.(stack := s.stack + [Segment(field, indexer)])
  }

  function Exit(s: Sink): Sink {
    if s.stack == [] then s else s.(stack := s.stack[..|s.stack| - 1])
  }

  function Emit(s: Sink, c: Check, v: Value): Sink {
    s.(events := s.events + [Event(s.stack, c, v)])
  }

  /** The bodies of the generated impls by type name; a type without one is not descended into. */
  type Impls = map<string, seq<Stmt>>

  function Validate(impls: Impls, m: Message, s: Sink): (r: Sink)
    ensures r.stack == s.stack
    decreases m, 3, 0
  {
    if m.Struct? && m.typeName in impls then ExecAll(impls, m, impls[m.typeName], s) else s
  }

  function ExecAll(impls: Impls, m: Message, body: seq<Stmt>, s: Sink): (r: Sink)
    requires m.Struct?
    ensures r.stack == s.stack
    decreases m, 2, |body|
  {
    if body == [] then s
    else Exec(impls, m, body[|body| - 1], ExecAll(impls, m, body[..|body| - 1], s))
  }

  function Exec(impls: Impls, m: Message, stmt: Stmt, s: Sink): (r: Sink)
    requires m.Struct?
    ensures r.stack == s.stack
    decreases m, 1, 0
  {
    match stmt
    case CheckIfSet(k, c) => if k < |m.values| && m.values[k].One? then Emit(s, c, m.values[k]) else s
    case CheckAlways(k, c) => if k < |m.values| then Emit(s, c, m.values[k]) else s
    case Descend(k, field, _) => if k < |m.values| then Into(impls, m.values[k], field, s) else s
    case MatchOneof(_, arms, _) => ExecArms(impls, m, arms, s)
  }

  /** The arm of the variant that is set, if it has one. */
  function ExecArms(impls: Impls, m: Message, arms: seq<Arm>, s: Sink): (r: Sink)
    requires m.Struct?
    ensures r.stack == s.stack
    decreases m, 0, |arms|
  {
    if arms == [] then s
    else
      var arm := arms[|arms| - 1];
      if arm.slot < |m.values| && m.values[arm.slot].One? then RunArm(impls, m.values[arm.slot], arm.action, s)
      else ExecArms(impls, m, arms[..|arms| - 1], s)
  }

  function RunArm(impls: Impls, v: Value, action: ArmAction, s: Sink): (r: Sink)
    ensures r.stack == s.stack
    decreases v, 1, 0
  {
    match action
    case ArmCheck(c) => Emit(s, c, v)
    case ArmNothing => s
    case ArmDescend(field) => Into(impls, v, field, s)
  }

  function Into(impls: Impls, v: Value, field: string, s: Sink): (r: Sink)
    ensures r.stack == s.stack
    decreases v, 0, 0
  {
    match v
    case Absent => s
    case One(m) => Exit(Validate(impls, m, Enter(s, field, NoIndex)))
    case Many(ms) => IntoMany(impls, ms, field, s)
    case Entries(es) => IntoEntries(impls, es, field, s)
  }

  function IntoMany(impls: Impls, ms: seq<Message>, field: string, s: Sink): (r: Sink)
    ensures r.stack == s.stack
    decreases ms, 0, |ms|
  {
    if ms == [] then s
    else
      var n := |ms| - 1;
      Exit(Validate(impls, ms[n], Enter(IntoMany(impls, ms[..n], field, s), field, Index(n))))
  }

  function IntoEntries(impls: Impls, es: seq<Entry>, field: string, s: Sink): (r: Sink)
    ensures r.stack == s.stack
    decreases es, 0, |es|
  {
    if es == [] then s
    else
      var n := |es| - 1;
      Exit(Validate(impls, es[n].value, Enter(IntoEntries(impls, es[..n], field, s), field, Key(es[n].key))))
  }

  // ----- what the policy table asks for -----

  /** The measurement of a terminal type in a field of this form. */
  function MeasuredAs(msg: Descriptor, f: Field): Option<LeafKind> {
    match MapValueType(msg, f)
    case Some(t) =>
      if t == PAYLOAD then Some(LeafKind.MapPayload) else if t == PAYLOADS then Some(MapPayloads) else None
    case None =>
      var t := OwnType(f);
      if t == ANY || t == FAILURE then Some(if f.repeated then RepeatedWholeMessage else WholeMessage)
      else if t == SEARCH_ATTRIBUTES then Some(SingleSearchAttributes)
      else if t == HEADER then Some(SingleHeader)
      else if t == MEMO then Some(SingleMemo)
      else if t == PAYLOADS then Some(SinglePayloads)
      else if t == PAYLOAD then Some(if f.repeated then RepeatedPayload else SinglePayload)
      else None
  }

  /**
   The checks a message must issue: one for every set leaf field with a `Validated` policy, found
   by walking the whole tree down to terminal types that can hold a payload.
   */
  ghost function Expected(g: Graph, table: Table, m: Message, at: seq<Segment>): multiset<Event>
    decreases m, 3, 0
  {
    if m.Struct? && m.typeName in g.messages && |m.values| == |g.messages[m.typeName].fields| then
      ExpectedUpTo(g, table, m, at, |m.values|)
    else multiset{}
  }

  ghost function ExpectedUpTo(g: Graph, table: Table, m: Message, at: seq<Segment>, k: nat): multiset<Event>
    requires m.Struct? && m.typeName in g.messages && k <= |m.values| == |g.messages[m.typeName].fields|
    decreases m, 2, k
  {
    if k == 0 then multiset{}
    else ExpectedUpTo(g, table, m, at, k - 1) + ExpectedAt(g, table, m, at, k - 1)
  }

  ghost function ExpectedAt(g: Graph, table: Table, m: Message, at: seq<Segment>, k: nat): multiset<Event>
    requires m.Struct? && m.typeName in g.messages && k < |m.values| == |g.messages[m.typeName].fields|
    decreases m, 1, 0
  {
    var msg := g.messages[m.typeName];
    var f := msg.fields[k];
    if !f.isMessage then multiset{}
    else if MeasuredAs(msg, f).Some? then
      if PayloadReach.HoldsPayload(g, FieldTarget(msg, f)) then
        LeafEvents(table, FieldPath(m.typeName, f.name), f.name, MeasuredAs(msg, f).value, m.values[k], at)
      else multiset{}
    else ExpectedIn(g, table, m.values[k], f.name, at)
  }

  ghost function LeafEvents(table: Table, path: string, field: string, kind: LeafKind, v: Value, at: seq<Segment>)
    : multiset<Event>
  {
    if path in table && table[path].Validated? && v != Absent then
      var measure := if kind == SingleMemo && table[path].limit == Blob then MemoFieldsDataSum else kind;
      multiset{Event(at, Check(field, table[path].limit, measure, table[path].enforce), v)}
    else multiset{}
  }

  ghost function ExpectedIn(g: Graph, table: Table, v: Value, field: string, at: seq<Segment>): multiset<Event>
    decreases v, 0, 0
  {
    match v
    case Absent => multiset{}
    case One(m) => Expected(g, table, m, at + [Segment(field, NoIndex)])
    case Many(ms) => ExpectedMany(g, table, ms, field, at)
    case Entries(es) => ExpectedEntries(g, table, es, field, at)
  }

  ghost function ExpectedMany(g: Graph, table: Table, ms: seq<Message>, field: string,
      at: seq<Segment>): multiset<Event>
    decreases ms, 0, |ms|
  {
    if ms == [] then multiset{}
    else
      var n := |ms| - 1;
      ExpectedMany(g, table, ms[..n], field, at) + Expected(g, table, ms[n], at + [Segment(field, Index(n))])
  }

  ghost function ExpectedEntries(g: Graph, table: Table, es: seq<Entry>, field: string, at: seq<Segment>)
    : multiset<Event>
    decreases es, 0, |es|
  {
    if es == [] then multiset{}
    else
      var n := |es| - 1;
      ExpectedEntries(g, table, es[..n], field, at)
      + Expected(g, table, es[n].value, at + [Segment(field, Key(es[n].key))])
  }

  // ----- the validator issues exactly those checks -----

  /** What the emitted statements need of a type to type-check and to find the impls they call. */
  predicate Fits(table: Table, t: Type, impls: set<string>)
    requires Matched(t)
  {
    forall k :: 0 <= k < |t.targets| ==>
      match t.targets[k]
      case Leaf(kind) => Guarded(kind) && LeafCheck(table, PathAt(t, k), t.msg.fields[k].name, kind).Some? ==>
          !t.msg.fields[k].repeated
      case Inner(_, inner) => inner in impls
      case Skip => true
      case Panic => false
  }

  /** `ty` is the named type of the descriptor set with its fields classified. */
  ghost predicate IsTypeOf(g: Graph, yes: set<string>, name: string, ty: Type) {
    && name in g.messages && ty.name == name && ty.msg == g.messages[name] && Matched(ty)
    && forall k :: 0 <= k < |ty.targets| ==> ty.targets[k] == Classify(yes, ty.msg, ty.msg.fields[k])
  }

  /** The generated types and their impls belong together and compile. */
  ghost predicate Ready(g: Graph, yes: set<string>, table: Table, types: map<string, Type>, impls: Impls) {
    && AllWellFormed(g) && V.Complete(g, yes)
    && impls.Keys == types.Keys
    && forall t :: t in types ==>
         && IsTypeOf(g, yes, t, types[t]) && !IsLeafType(t)
         && impls[t] == Body(table, types[t])
         && Fits(table, types[t], types.Keys)
  }

  /** The sink has seen exactly these checks more; its stack is where it was. */
  ghost predicate Adds(s: Sink, r: Sink, events: multiset<Event>) {
    r.stack == s.stack && multiset(r.events) == multiset(s.events) + events
  }

  /** What a classification says about the field, in terms of what its type can hold. */
  lemma ClassifyMeans(g: Graph, yes: set<string>, msg: Descriptor, f: Field)
    requires V.Complete(g, yes)
    ensures match Classify(yes, msg, f)
            case Skip => f.isMessage ==> !PayloadReach.HoldsPayload(g, FieldTarget(msg, f))
            case Leaf(kind) =>
              && f.isMessage && PayloadReach.HoldsPayload(g, FieldTarget(msg, f))
              && MeasuredAs(msg, f) == Some(kind)
              && (MapValueType(msg, f).Some? ==> !Guarded(kind))
              && (MapValueType(msg, f).None? && !f.repeated ==> Guarded(kind))
            case Inner(_, t) =>
              f.isMessage && t == FieldTarget(msg, f) && PayloadReach.HoldsPayload(g, t) && MeasuredAs(msg, f).None?
            case Panic => true
  {
  }

  lemma {:induction false} NothingExpected(g: Graph, table: Table, t: string, m: Message, at: seq<Segment>)
    requires WellTyped(g, t, m) && !PayloadReach.HoldsPayload(g, t)
    ensures Expected(g, table, m, at) == multiset{}
    decreases m, 3, 0
  {
    if m.Struct? { NothingExpectedUpTo(g, table, m, at, |m.values|); }
  }

  lemma {:induction false} NothingExpectedUpTo(g: Graph, table: Table, m: Message, at: seq<Segment>, k: nat)
    requires m.Struct? && WellTyped(g, m.typeName, m) && !PayloadReach.HoldsPayload(g, m.typeName) && k <= |m.values|
    ensures ExpectedUpTo(g, table, m, at, k) == multiset{}
    decreases m, 2, k
  {
    if k > 0 {
      NothingExpectedUpTo(g, table, m, at, k - 1);
      V.FieldCannotHold(g, m.typeName, k - 1);
      NothingExpectedAt(g, table, m, at, k - 1);
    }
  }

  lemma {:induction false} NothingExpectedAt(g: Graph, table: Table, m: Message, at: seq<Segment>, k: nat)
    requires m.Struct? && WellTyped(g, m.typeName, m) && k < |m.values|
    requires var msg := g.messages[m.typeName];
             msg.fields[k].isMessage ==> !PayloadReach.HoldsPayload(g, FieldTarget(msg, msg.fields[k]))
    ensures ExpectedAt(g, table, m, at, k) == multiset{}
    decreases m, 1, 0
  {
    var msg := g.messages[m.typeName];
    var f := msg.fields[k];
    assert ValueOk(g, msg, f, m.values[k]);
    if f.isMessage { NothingExpectedIn(g, table, FieldTarget(msg, f), m.values[k], f.name, at); }
  }

  ghost predicate HoldsOnly(g: Graph, t: string, v: Value) {
    match v
    case Absent => true
    case One(m) => WellTyped(g, t, m)
    case Many(ms) => forall m :: m in ms ==> WellTyped(g, t, m)
    case Entries(es) => forall e :: e in es ==> WellTyped(g, t, e.value)
  }

  lemma {:induction false} NothingExpectedIn(g: Graph, table: Table, t: string, v: Value, field: string,
                                             at: seq<Segment>)
    requires HoldsOnly(g, t, v) && !PayloadReach.HoldsPayload(g, t)
    ensures ExpectedIn(g, table, v, field, at) == multiset{}
    decreases v, 0, 0
  {
    match v
    case Absent =>
    case One(m) => NothingExpected(g, table, t, m, at + [Segment(field, NoIndex)]);
    case Many(ms) => NothingExpectedMany(g, table, t, ms, field, at);
    case Entries(es) => NothingExpectedEntries(g, table, t, es, field, at);
  }

  lemma {:induction false} NothingExpectedMany(g: Graph, table: Table, t: string, ms: seq<Message>, field: string,
                                               at: seq<Segment>)
    requires (forall m :: m in ms ==> WellTyped(g, t, m)) && !PayloadReach.HoldsPayload(g, t)
    ensures ExpectedMany(g, table, ms, field, at) == multiset{}
    decreases ms, 0, |ms|
  {
    if ms != [] {
      NothingExpectedMany(g, table, t, ms[..|ms| - 1], field, at);
      NothingExpected(g, table, t, ms[|ms| - 1], at + [Segment(field, Index(|ms| - 1))]);
    }
  }

  lemma {:induction false} NothingExpectedEntries(g: Graph, table: Table, t: string, es: seq<Entry>, field: string,
                                                  at: seq<Segment>)
    requires (forall e :: e in es ==> WellTyped(g, t, e.value)) && !PayloadReach.HoldsPayload(g, t)
    ensures ExpectedEntries(g, table, es, field, at) == multiset{}
    decreases es, 0, |es|
  {
    if es != [] {
      NothingExpectedEntries(g, table, t, es[..|es| - 1], field, at);
      NothingExpected(g, table, t, es[|es| - 1].value, at + [Segment(field, Key(es[|es| - 1].key))]);
    }
  }

  lemma AddsTrans(s: Sink, r: Sink, q: Sink, a: multiset<Event>, b: multiset<Event>)
    requires Adds(s, r, a) && Adds(r, q, b)
    ensures Adds(s, q, a + b)
  {
  }

  lemma EmitAdds(s: Sink, c: Check, v: Value)
    ensures Adds(s, Emit(s, c, v), multiset{Event(s.stack, c, v)})
  {
  }

  /** Entering, validating and leaving one nested message. */
  lemma {:induction false} NestedAdds(g: Graph, yes: set<string>, table: Table, types: map<string, Type>,
                                      impls: Impls, t: string, m: Message,
                                      field: string, indexer: Indexer, s: Sink)
    requires Ready(g, yes, table, types, impls) && t in types && WellTyped(g, t, m)
    ensures Adds(s, Exit(Validate(impls, m, Enter(s, field, indexer))),
                 Expected(g, table, m, s.stack + [Segment(field, indexer)]))
    decreases m, 4, 0
  {
    ValidatorIsExact(g, yes, table, types, impls, t, m, Enter(s, field, indexer));
  }

  lemma {:induction false} IntoAdds(g: Graph, yes: set<string>, table: Table, types: map<string, Type>,
                                    impls: Impls, t: string, v: Value, field: string, s: Sink)
    requires Ready(g, yes, table, types, impls) && t in types && HoldsOnly(g, t, v)
    ensures Adds(s, Into(impls, v, field, s), ExpectedIn(g, table, v, field, s.stack))
    decreases v, 0, 0
  {
    match v
    case Absent =>
    case One(m) => NestedAdds(g, yes, table, types, impls, t, m, field, NoIndex, s);
    case Many(ms) => IntoManyAdds(g, yes, table, types, impls, t, ms, field, s);
    case Entries(es) => IntoEntriesAdds(g, yes, table, types, impls, t, es, field, s);
  }

  lemma {:induction false} IntoManyAdds(g: Graph, yes: set<string>, table: Table, types: map<string, Type>,
                                        impls: Impls, t: string, ms: seq<Message>,
                                        field: string, s: Sink)
    requires Ready(g, yes, table, types, impls) && t in types && forall m :: m in ms ==> WellTyped(g, t, m)
    ensures Adds(s, IntoMany(impls, ms, field, s), ExpectedMany(g, table, ms, field, s.stack))
    decreases ms, 0, |ms|
  {
    if ms != [] {
      var n := |ms| - 1;
      IntoManyAdds(g, yes, table, types, impls, t, ms[..n], field, s);
      var r := IntoMany(impls, ms[..n], field, s);
      NestedAdds(g, yes, table, types, impls, t, ms[n], field, Index(n), r);
      AddsTrans(s, r, IntoMany(impls, ms, field, s), ExpectedMany(g, table, ms[..n], field, s.stack),
                Expected(g, table, ms[n], s.stack + [Segment(field, Index(n))]));
    }
  }

  lemma {:induction false} IntoEntriesAdds(g: Graph, yes: set<string>, table: Table, types: map<string, Type>,
                                           impls: Impls, t: string, es: seq<Entry>,
                                           field: string, s: Sink)
    requires Ready(g, yes, table, types, impls) && t in types && forall e :: e in es ==> WellTyped(g, t, e.value)
    ensures Adds(s, IntoEntries(impls, es, field, s), ExpectedEntries(g, table, es, field, s.stack))
    decreases es, 0, |es|
  {
    if es != [] {
      var n := |es| - 1;
      IntoEntriesAdds(g, yes, table, types, impls, t, es[..n], field, s);
      var r := IntoEntries(impls, es[..n], field, s);
      NestedAdds(g, yes, table, types, impls, t, es[n].value, field, Key(es[n].key), r);
      AddsTrans(s, r, IntoEntries(impls, es, field, s), ExpectedEntries(g, table, es[..n], field, s.stack),
                Expected(g, table, es[n].value, s.stack + [Segment(field, Key(es[n].key))]));
    }
  }

  /**
   On every message of a type with an impl, the validator leaves the path stack as it found it
   and issues exactly the checks the table asks for, each with its location and measurement.
   */
  lemma {:induction false} ValidatorIsExact(g: Graph, yes: set<string>, table: Table, types: map<string, Type>,
                                            impls: Impls, t: string, m: Message, s: Sink)
    requires Ready(g, yes, table, types, impls) && t in types && WellTyped(g, t, m)
    ensures Adds(s, Validate(impls, m, s), Expected(g, table, m, s.stack))
    decreases m, 3, 0
  {
    var ty := types[t];
    var n, o := |ty.targets|, |ty.msg.oneofs|;
    var cs := seq(|m.values|, k requires 0 <= k < |m.values| => ExpectedAt(g, table, m, s.stack, k));
    assert Context(g, yes, table, types, impls, m, ty, s.stack, cs);
    var mid := ExecAll(impls, m, RegularBody(table, ty, n), s);
    ExecConcat(impls, m, RegularBody(table, ty, n), OneofBody(table, ty, o), s);
    forall k | 0 <= k < n ensures FieldGood(table, impls, m, ty, s.stack, cs, k) {
      FieldIsGood(g, yes, table, types, impls, m, ty, s.stack, cs, k);
    }
    forall i | 0 <= i < o ensures OneofGood(table, impls, m, ty, s.stack, cs, i) {
      OneofIsGood(g, yes, table, types, impls, m, ty, s.stack, cs, i);
    }
    RegularAdds(table, impls, m, ty, s.stack, cs, s, n);
    OneofsAdd(table, impls, m, ty, s.stack, cs, mid, o);
    AddsTrans(s, mid, Validate(impls, m, s), SumOf(ty.msg.fields, cs, None, n), SumGroups(ty.msg.fields, cs, o, n));
    ExpectedSums(g, table, m, s.stack, cs, n);
    OneofsInRange(ty.msg);
    GroupsPartition(ty.msg.fields, cs, o, n);
  }

  lemma OneofsInRange(msg: Descriptor)
    requires WellFormed(msg)
    ensures forall i :: 0 <= i < |msg.fields| && msg.fields[i].oneofIndex.Some? ==>
        msg.fields[i].oneofIndex.value < |msg.oneofs|
  {
    assert forall i :: 0 <= i < |msg.fields| ==> FieldOk(msg, msg.fields[i]);
  }

  /** `cs` lists the expected checks field by field. */
  ghost predicate Contributions(g: Graph, table: Table, m: Message, at: seq<Segment>, cs: seq<multiset<Event>>) {
    && m.Struct? && m.typeName in g.messages
    && |cs| == |m.values| == |g.messages[m.typeName].fields|
    && forall k :: 0 <= k < |cs| ==> cs[k] == ExpectedAt(g, table, m, at, k)
  }

  /** One message under validation, at a location. */
  ghost predicate Context(g: Graph, yes: set<string>, table: Table, types: map<string, Type>, impls: Impls,
                          m: Message, ty: Type, at: seq<Segment>, cs: seq<multiset<Event>>) {
    && Ready(g, yes, table, types, impls)
    && m.Struct? && m.typeName in types && ty == types[m.typeName] && WellTyped(g, m.typeName, m)
    && Contributions(g, table, m, at, cs)
  }

  lemma {:induction false} ExpectedSums(g: Graph, table: Table, m: Message, at: seq<Segment>,
                                        cs: seq<multiset<Event>>, k: nat)
    requires Contributions(g, table, m, at, cs) && k <= |cs|
    ensures ExpectedUpTo(g, table, m, at, k) == SumAll(cs, k)
    decreases k
  {
    if k > 0 { ExpectedSums(g, table, m, at, cs, k - 1); }
  }

  lemma {:induction false} ExecConcat(impls: Impls, m: Message, a: seq<Stmt>, b: seq<Stmt>, s: Sink)
    requires m.Struct?
    ensures ExecAll(impls, m, a + b, s) == ExecAll(impls, m, b, ExecAll(impls, m, a, s))
    decreases |b|
  {
    if b == [] {
      assert a + b == a;
    } else {
      var c := b[..|b| - 1];
      assert (a + b)[..|a + b| - 1] == a + c;
      ExecConcat(impls, m, a, c, s);
    }
  }

  lemma ExecOne(impls: Impls, m: Message, stmt: Stmt, s: Sink)
    requires m.Struct?
    ensures ExecAll(impls, m, [stmt], s) == Exec(impls, m, stmt, s)
  {
    assert [stmt][..0] == [];
    assert ExecAll(impls, m, [], s) == s;
  }

  /** Whatever the sink has seen, the statement of regular field `k` adds its expected checks. */
  ghost predicate FieldGood(table: Table, impls: Impls, m: Message, ty: Type, at: seq<Segment>,
      cs: seq<multiset<Event>>, k: nat) {
    && m.Struct? && Matched(ty) && k < |cs| == |ty.targets|
    && (ty.msg.fields[k].oneofIndex.None? ==>
          forall s: Sink {:trigger ExecAll(impls, m, FieldBody(table, ty, k), s)} ::
            s.stack == at ==> Adds(s, ExecAll(impls, m, FieldBody(table, ty, k), s), cs[k]))
  }

  lemma {:induction false} RegularAdds(table: Table, impls: Impls, m: Message, ty: Type, at: seq<Segment>,
                                       cs: seq<multiset<Event>>, s: Sink, k: nat)
    requires m.Struct? && Matched(ty) && k <= |cs| == |ty.targets| && s.stack == at
    requires forall i :: 0 <= i < |cs| ==> FieldGood(table, impls, m, ty, at, cs, i)
    ensures Adds(s, ExecAll(impls, m, RegularBody(table, ty, k), s), SumOf(ty.msg.fields, cs, None, k))
    decreases k
  {
    if k > 0 {
      RegularAdds(table, impls, m, ty, at, cs, s, k - 1);
      RegularUnfold(table, impls, ty, m, s, k);
      if ty.msg.fields[k - 1].oneofIndex.None? {
        var r := ExecAll(impls, m, RegularBody(table, ty, k - 1), s);
        assert FieldGood(table, impls, m, ty, at, cs, k - 1);
        AddsTrans(s, r, ExecAll(impls, m, FieldBody(table, ty, k - 1), r),
                  SumOf(ty.msg.fields, cs, None, k - 1), cs[k - 1]);
      }
    }
  }

  lemma RegularUnfold(table: Table, impls: Impls, ty: Type, m: Message, s: Sink, k: nat)
    requires Matched(ty) && 0 < k <= |ty.targets| && m.Struct?
    ensures var r := ExecAll(impls, m, RegularBody(table, ty, k - 1), s);
            ExecAll(impls, m, RegularBody(table, ty, k), s) ==
            if ty.msg.fields[k - 1].oneofIndex.None? then ExecAll(impls, m, FieldBody(table, ty, k - 1), r) else r
  {
    ExecConcat(impls, m, RegularBody(table, ty, k - 1), FieldBody(table, ty, k - 1), s);
  }

  lemma {:induction false} FieldAdds(g: Graph, yes: set<string>, table: Table, types: map<string, Type>,
                                     impls: Impls, m: Message,
                                     ty: Type, cs: seq<multiset<Event>>, s: Sink, k: nat)
    requires Context(g, yes, table, types, impls, m, ty, s.stack, cs) && k < |cs|
    ensures Adds(s, ExecAll(impls, m, FieldBody(table, ty, k), s), cs[k])
    decreases m, 1, 1
  {
    FieldMeaning(g, yes, table, types, impls, m, ty, s.stack, cs, k);
    match ty.targets[k]
    case Leaf(kind) =>
      LeafAdds(table, impls, ty, m, s, k, kind);
    case Inner(shape, inner) =>
      ExecOne(impls, m, Descend(k, ty.msg.fields[k].name, shape), s);
      IntoAdds(g, yes, table, types, impls, inner, m.values[k], ty.msg.fields[k].name, s);
    case Skip =>
  }

  /** What a classified field of a well-typed message is expected to report. */
  lemma FieldMeaning(g: Graph, yes: set<string>, table: Table, types: map<string, Type>, impls: Impls, m: Message,
                     ty: Type, at: seq<Segment>, cs: seq<multiset<Event>>, k: nat)
    requires Context(g, yes, table, types, impls, m, ty, at, cs) && k < |cs|
    ensures ty.targets[k].Leaf? ==>
              var name, kind := ty.msg.fields[k].name, ty.targets[k].kind;
              && cs[k] == LeafEvents(table, PathAt(ty, k), name, kind, m.values[k], at)
              && (Guarded(kind) && LeafCheck(table, PathAt(ty, k), name, kind).Some? ==>
                    m.values[k] == Absent || m.values[k].One?)
              && (!Guarded(kind) ==> m.values[k] != Absent)
    ensures ty.targets[k].Inner? ==>
              && ty.targets[k].t in types && HoldsOnly(g, ty.targets[k].t, m.values[k])
              && cs[k] == ExpectedIn(g, table, m.values[k], ty.msg.fields[k].name, at)
    ensures ty.targets[k].Skip? ==> cs[k] == multiset{}
    ensures !ty.targets[k].Panic?
  {
    var f := ty.msg.fields[k];
    assert ty.targets[k] == Classify(yes, ty.msg, f);
    ClassifyMeans(g, yes, ty.msg, f);
    FieldValue(g, ty.msg, f, m.values[k]);
    if ty.targets[k].Skip? { NothingExpectedAt(g, table, m, at, k); }
  }

  lemma FieldValue(g: Graph, msg: Descriptor, f: Field, v: Value)
    requires ValueOk(g, msg, f, v)
    ensures f.isMessage ==> HoldsOnly(g, FieldTarget(msg, f), v)
    ensures f.isMessage && (MapValueType(msg, f).Some? || f.repeated) ==> v != Absent && !v.One?
    ensures MapValueType(msg, f).None? && !f.repeated ==> v == Absent || v.One?
  {
  }

  /** One check, which a guarded statement only makes if the value is set. */
  lemma CheckAdds(impls: Impls, m: Message, k: nat, c: Check, s: Sink)
    requires m.Struct? && k < |m.values|
    ensures m.values[k] == Absent || m.values[k].One? ==>
              Adds(s, ExecAll(impls, m, [CheckIfSet(k, c)], s),
                   if m.values[k] != Absent then multiset{Event(s.stack, c, m.values[k])} else multiset{})
    ensures Adds(s, ExecAll(impls, m, [CheckAlways(k, c)], s), multiset{Event(s.stack, c, m.values[k])})
  {
    ExecOne(impls, m, CheckIfSet(k, c), s);
    ExecOne(impls, m, CheckAlways(k, c), s);
    EmitAdds(s, c, m.values[k]);
  }

  lemma SameGuard(kind: LeafKind, limit: LimitClass)
    ensures Guarded(EffectiveKind(kind, limit)) <==> Guarded(kind)
  {
  }

  lemma LeafAdds(table: Table, impls: Impls, ty: Type, m: Message, s: Sink, k: nat, kind: LeafKind)
    requires m.Struct? && Matched(ty) && k < |ty.targets| == |m.values| && ty.targets[k] == Leaf(kind)
    requires Guarded(kind) && LeafCheck(table, PathAt(ty, k), ty.msg.fields[k].name, kind).Some? ==>
               m.values[k] == Absent || m.values[k].One?
    requires !Guarded(kind) ==> m.values[k] != Absent
    ensures Adds(s, ExecAll(impls, m, FieldBody(table, ty, k), s),
                 LeafEvents(table, PathAt(ty, k), ty.msg.fields[k].name, kind, m.values[k], s.stack))
  {
    var path := PathAt(ty, k);
    var c := LeafCheck(table, path, ty.msg.fields[k].name, kind);
    if c.Some? {
      SameGuard(kind, table[path].limit);
      CheckAdds(impls, m, k, c.value, s);
    }
  }

  /** Whatever the sink has seen, the match on oneof `o` adds the expected checks of its members. */
  ghost predicate OneofGood(table: Table, impls: Impls, m: Message, ty: Type, at: seq<Segment>,
      cs: seq<multiset<Event>>, o: nat) {
    && m.Struct? && Matched(ty) && |cs| == |ty.targets|
    && forall s: Sink {:trigger ExecArms(impls, m, Arms(table, ty, o, |cs|), s)} :: s.stack == at ==>
         Adds(s, ExecArms(impls, m, Arms(table, ty, o, |cs|), s), SumOf(ty.msg.fields, cs, Some(o), |cs|))
  }

  lemma OneofGoodAt(table: Table, impls: Impls, m: Message, ty: Type, at: seq<Segment>, cs: seq<multiset<Event>>,
                    o: nat, s: Sink)
    requires OneofGood(table, impls, m, ty, at, cs, o) && s.stack == at
    ensures Adds(s, ExecArms(impls, m, Arms(table, ty, o, |cs|), s), SumOf(ty.msg.fields, cs, Some(o), |cs|))
  {
  }

  lemma {:induction false} OneofsAdd(table: Table, impls: Impls, m: Message, ty: Type, at: seq<Segment>,
                                     cs: seq<multiset<Event>>, s: Sink, o: nat)
    requires m.Struct? && Matched(ty) && |cs| == |ty.targets| && s.stack == at && o <= |ty.msg.oneofs|
    requires forall i :: 0 <= i < |ty.msg.oneofs| ==> OneofGood(table, impls, m, ty, at, cs, i)
    ensures Adds(s, ExecAll(impls, m, OneofBody(table, ty, o), s), SumGroups(ty.msg.fields, cs, o, |cs|))
    decreases o
  {
    if o > 0 {
      OneofsAdd(table, impls, m, ty, at, cs, s, o - 1);
      var r := ExecAll(impls, m, OneofBody(table, ty, o - 1), s);
      OneofUnfold(table, impls, ty, m, s, o);
      OneofGoodAt(table, impls, m, ty, at, cs, o - 1, r);
      AddsTrans(s, r, ExecArms(impls, m, Arms(table, ty, o - 1, |cs|), r),
                SumGroups(ty.msg.fields, cs, o - 1, |cs|), SumOf(ty.msg.fields, cs, Some(o - 1), |cs|));
    }
  }

  lemma OneofUnfold(table: Table, impls: Impls, ty: Type, m: Message, s: Sink, o: nat)
    requires Matched(ty) && 0 < o <= |ty.msg.oneofs| && m.Struct?
    ensures ExecAll(impls, m, OneofBody(table, ty, o), s) ==
            ExecArms(impls, m, Arms(table, ty, o - 1, |ty.targets|), ExecAll(impls, m, OneofBody(table, ty, o - 1), s))
  {
    var arms := Arms(table, ty, o - 1, |ty.targets|);
    if arms != [] {
      var stmt := MatchOneof(o - 1, arms, V.GroupSize(ty.msg, o - 1, |ty.msg.fields|));
      ExecConcat(impls, m, OneofBody(table, ty, o - 1), [stmt], s);
      ExecOne(impls, m, stmt, ExecAll(impls, m, OneofBody(table, ty, o - 1), s));
    }
  }

  /** What member `k` of a oneof does to the outcome of its match. */
  ghost predicate MemberGood(table: Table, impls: Impls, m: Message, ty: Type, cs: seq<multiset<Event>>, s: Sink,
      o: nat, k: nat) {
    && m.Struct? && Matched(ty) && k < |cs| == |ty.targets|
    && var before := ExecArms(impls, m, Arms(table, ty, o, k), s);
       var after := ExecArms(impls, m, Arms(table, ty, o, k + 1), s);
       if ty.msg.fields[k].oneofIndex == Some(o) then
         || (after == before && cs[k] == multiset{})
         || (Adds(s, after, cs[k]) && SumOf(ty.msg.fields, cs, Some(o), k) == multiset{})
       else after == before
  }

  lemma {:induction false} ArmsAdd(table: Table, impls: Impls, m: Message, ty: Type, cs: seq<multiset<Event>>,
                                   s: Sink, o: nat, k: nat)
    requires m.Struct? && Matched(ty) && k <= |cs| == |ty.targets|
    requires forall i :: 0 <= i < |cs| ==> MemberGood(table, impls, m, ty, cs, s, o, i)
    ensures Adds(s, ExecArms(impls, m, Arms(table, ty, o, k), s), SumOf(ty.msg.fields, cs, Some(o), k))
    decreases k
  {
    if k > 0 {
      ArmsAdd(table, impls, m, ty, cs, s, o, k - 1);
      assert MemberGood(table, impls, m, ty, cs, s, o, k - 1);
    }
  }

  lemma {:induction false} OneofIsGood(g: Graph, yes: set<string>, table: Table, types: map<string, Type>,
                                       impls: Impls, m: Message,
                                       ty: Type, at: seq<Segment>, cs: seq<multiset<Event>>, o: nat)
    requires Context(g, yes, table, types, impls, m, ty, at, cs)
    ensures OneofGood(table, impls, m, ty, at, cs, o)
    decreases m, 1, 2
  {
    forall s: Sink | s.stack == at
      ensures Adds(s, ExecArms(impls, m, Arms(table, ty, o, |cs|), s), SumOf(ty.msg.fields, cs, Some(o), |cs|))
    {
      forall k | 0 <= k < |cs| ensures MemberGood(table, impls, m, ty, cs, s, o, k) {
        if ty.msg.fields[k].oneofIndex == Some(o) {
          ArmStep(g, yes, table, types, impls, m, ty, cs, s, o, k);
          if m.values[k] != Absent { SetAlone(g, table, m, at, cs, k); }
        }
      }
      ArmsAdd(table, impls, m, ty, cs, s, o, |cs|);
    }
  }

  lemma {:induction false} FieldIsGood(g: Graph, yes: set<string>, table: Table, types: map<string, Type>,
                                       impls: Impls, m: Message,
                                       ty: Type, at: seq<Segment>, cs: seq<multiset<Event>>, k: nat)
    requires Context(g, yes, table, types, impls, m, ty, at, cs) && k < |cs|
    ensures FieldGood(table, impls, m, ty, at, cs, k)
    decreases m, 1, 2
  {
    forall s: Sink | s.stack == at ensures Adds(s, ExecAll(impls, m, FieldBody(table, ty, k), s), cs[k]) {
      FieldAdds(g, yes, table, types, impls, m, ty, cs, s, k);
    }
  }

  lemma SetAlone(g: Graph, table: Table, m: Message, at: seq<Segment>, cs: seq<multiset<Event>>, k: nat)
    requires Contributions(g, table, m, at, cs) && OneofsExclusive(g.messages[m.typeName], m.values)
    requires k < |cs| && m.values[k] != Absent && g.messages[m.typeName].fields[k].oneofIndex.Some?
    ensures var fields := g.messages[m.typeName].fields; SumOf(fields, cs, fields[k].oneofIndex, k) == multiset{}
  {
    forall i | 0 <= i < |m.values| && m.values[i] == Absent ensures cs[i] == multiset{} {
      AbsentExpectsNothing(g, table, m, at, i);
    }
    OthersUnset(g.messages[m.typeName], m.values, cs, k, k);
  }

  lemma AbsentExpectsNothing(g: Graph, table: Table, m: Message, at: seq<Segment>, k: nat)
    requires m.Struct? && m.typeName in g.messages && k < |m.values| == |g.messages[m.typeName].fields|
    requires m.values[k] == Absent
    ensures ExpectedAt(g, table, m, at, k) == multiset{}
  {
  }

  lemma {:induction false} ArmStep(g: Graph, yes: set<string>, table: Table, types: map<string, Type>, impls: Impls,
                                   m: Message,
                                   ty: Type, cs: seq<multiset<Event>>, s: Sink, o: nat, k: nat)
    requires Context(g, yes, table, types, impls, m, ty, s.stack, cs) && k < |cs|
    requires ty.msg.fields[k].oneofIndex == Some(o)
    ensures var before := ExecArms(impls, m, Arms(table, ty, o, k), s);
            var after := ExecArms(impls, m, Arms(table, ty, o, k + 1), s);
            if IsArm(ty, o, k) && m.values[k] != Absent then Adds(s, after, cs[k])
            else after == before && cs[k] == multiset{}
    decreases m, 1, 1
  {
    var f := ty.msg.fields[k];
    assert FieldOk(ty.msg, f);
    FieldValue(g, ty.msg, f, m.values[k]);
    FieldMeaning(g, yes, table, types, impls, m, ty, s.stack, cs, k);
    if IsArm(ty, o, k) {
      LastArm(impls, m, Arms(table, ty, o, k), ArmFor(table, ty, k), s);
      if m.values[k] == Absent {
        AbsentExpectsNothing(g, table, m, s.stack, k);
      } else {
        ArmRuns(g, yes, table, types, impls, m, ty, cs, s, k);
      }
    }
  }

  lemma LastArm(impls: Impls, m: Message, arms: seq<Arm>, arm: Arm, s: Sink)
    requires m.Struct? && arm.slot < |m.values|
    ensures ExecArms(impls, m, arms + [arm], s) ==
            if m.values[arm.slot].One? then RunArm(impls, m.values[arm.slot], arm.action, s) else ExecArms(impls, m,
                arms, s)
  {
    assert (arms + [arm])[..|arms|] == arms;
  }

  lemma ArmLeafAdds(table: Table, impls: Impls, ty: Type, v: Value, s: Sink, k: nat, kind: LeafKind)
    requires Matched(ty) && k < |ty.targets| && ty.targets[k] == Leaf(kind) && v != Absent
    ensures Adds(s, RunArm(impls, v, ArmFor(table, ty, k).action, s),
                 LeafEvents(table, PathAt(ty, k), ty.msg.fields[k].name, kind, v, s.stack))
  {
    var c := LeafCheck(table, PathAt(ty, k), ty.msg.fields[k].name, kind);
    if c.Some? { EmitAdds(s, c.value, v); }
  }

  lemma {:induction false} ArmRuns(g: Graph, yes: set<string>, table: Table, types: map<string, Type>, impls: Impls,
                                   m: Message,
                                   ty: Type, cs: seq<multiset<Event>>, s: Sink, k: nat)
    requires Context(g, yes, table, types, impls, m, ty, s.stack, cs) && k < |cs|
    requires m.values[k].One? && !ty.targets[k].Skip?
    ensures Adds(s, RunArm(impls, m.values[k], ArmFor(table, ty, k).action, s), cs[k])
    decreases m, 1, 0
  {
    FieldMeaning(g, yes, table, types, impls, m, ty, s.stack, cs, k);
    if ty.targets[k].Leaf? {
      ArmLeafAdds(table, impls, ty, m.values[k], s, k, ty.targets[k].kind);
    } else {
      IntoAdds(g, yes, table, types, impls, ty.targets[k].t, m.values[k], ty.msg.fields[k].name, s);
      InnerArm(table, ty, k);
    }
  }

  lemma InnerArm(table: Table, ty: Type, k: nat)
    requires Matched(ty) && k < |ty.targets| && ty.targets[k].Inner?
    ensures ArmFor(table, ty, k).action == ArmDescend(ty.msg.fields[k].name)
  {
  }
}
