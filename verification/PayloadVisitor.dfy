/**
 The payload visitor that crates/common/build.rs generates: per message type a list of field
 visits, compiled from the descriptors and pruned to payload-containing fields. The generated
 code is given a meaning as an interpreter over message trees, and that meaning is compared
 with a traversal of the whole tree.
 */
module PayloadVisitor {
  import opened Common
  import opened Descriptors
  import opened MessageTree
  import opened RustTypes
  import Search = GraphSearch
  import PayloadReach

  /** A payload together with the field path it is reported under. */
  type Tagged = (string, int)

  // ----- the generator -----

  datatype Shape = Single(target: string) | Repeated(target: string) | Map(target: string)

  /** `field_shape`: `None` for scalars and for targets that are not payload-containing. */
  function FieldShape(yes: set<string>, msg: Descriptor, f: Field): Option<Shape> {
    if !f.isMessage then None
    else
      match MapValueType(msg, f)
      case Some(t) => if t in yes then Some(Map(t)) else None
      case None =>
        if OwnType(f) !in yes then None
        else if f.repeated then Some(Repeated(OwnType(f)))
        else Some(Single(OwnType(f)))
  }

  datatype Kind =
    | SinglePayload
    | RepeatedPayload
    | PayloadsMessage
    | MapPayload
    | MapNested
    | Nested
    | Oneof(index: nat, variants: seq<nat>, total: nat)

  /** One visit of the generated impl; `slot` is the struct field it accesses. */
  datatype Info = Info(name: string, path: string, slot: nat, kind: Kind)

  function KindOf(shape: Shape): Kind {
    match shape
    case Map(t) => if t == PAYLOAD then MapPayload else MapNested
    case Single(t) => if t == PAYLOAD then SinglePayload else if t == PAYLOADS then PayloadsMessage else Nested
    case Repeated(t) => if t == PAYLOAD then RepeatedPayload else if t == PAYLOADS then PayloadsMessage else Nested
  }

  /** `build_single_field_info` over the regular ones among the first `k` fields. */
  function RegularInfos(yes: set<string>, t: string, msg: Descriptor, k: nat): seq<Info>
    requires k <= |msg.fields|
  {
    if k == 0 then []
    else if IsRegular(yes, msg, k - 1) then RegularInfos(yes, t, msg, k - 1) + [RegularInfo(yes, t, msg, k - 1)]
    else RegularInfos(yes, t, msg, k - 1)
  }

  predicate IsRegular(yes: set<string>, msg: Descriptor, k: nat) {
    k < |msg.fields| && msg.fields[k].oneofIndex.None? && FieldShape(yes, msg, msg.fields[k]).Some?
  }

  function RegularInfo(yes: set<string>, t: string, msg: Descriptor, k: nat): Info
    requires IsRegular(yes, msg, k)
  {
    var f := msg.fields[k];
    Info(f.name, FieldPath(t, f.name), k, KindOf(FieldShape(yes, msg, f).value))
  }

  predicate IsVariant(yes: set<string>, f: Field, o: nat) {
    f.oneofIndex == Some(o) && f.isMessage && OwnType(f) in yes
  }

  /** The payload-containing members of oneof `o` among the first `k` fields. */
  function Variants(yes: set<string>, msg: Descriptor, o: nat, k: nat): seq<nat>
    requires k <= |msg.fields|
  {
    if k == 0 then []
    else if IsVariant(yes, msg.fields[k - 1], o) then Variants(yes, msg, o, k - 1) + [k - 1]
    else Variants(yes, msg, o, k - 1)
  }

  function GroupSize(msg: Descriptor, o: nat, k: nat): nat
    requires k <= |msg.fields|
  {
    if k == 0 then 0
    else GroupSize(msg, o, k - 1) + if msg.fields[k - 1].oneofIndex == Some(o) then 1 else 0
  }

  predicate HasVariants(yes: set<string>, msg: Descriptor, o: nat) {
    o < |msg.oneofs| && Variants(yes, msg, o, |msg.fields|) != []
  }

  function OneofInfo(yes: set<string>, t: string, msg: Descriptor, o: nat): Info
    requires HasVariants(yes, msg, o)
  {
    var vs := Variants(yes, msg, o, |msg.fields|);
    Info(msg.oneofs[o], FieldPath(t, msg.oneofs[o]), vs[0], Oneof(o, vs, GroupSize(msg, o, |msg.fields|)))
  }

  /** The oneofs with index below `o`, in index order; one without payload variants is dropped. */
  function OneofInfos(yes: set<string>, t: string, msg: Descriptor, o: nat): seq<Info>
    requires o <= |msg.oneofs|
  {
    if o == 0 then []
    else if HasVariants(yes, msg, o - 1) then OneofInfos(yes, t, msg, o - 1) + [OneofInfo(yes, t, msg, o - 1)]
    else OneofInfos(yes, t, msg, o - 1)
  }

  /** `build_field_info`: regular fields in declaration order, then the oneofs. */
  function Infos(yes: set<string>, t: string, msg: Descriptor): seq<Info> {
    RegularInfos(yes, t, msg, |msg.fields|) + OneofInfos(yes, t, msg, |msg.oneofs|)
  }

  /**
   How `generate_field_visit` finds out whether a nested field is repeated: it looks the field
   up again by the parent half of its path and by its name.
   */
  predicate LooksRepeated(g: Graph, path: string, name: string) {
    var parent := ParentPath(path);
    parent in g.messages
    && exists i :: 0 <= i < |g.messages[parent].fields|
                   && g.messages[parent].fields[i].name == name && g.messages[parent].fields[i].repeated
  }

  // ----- the meaning of the generated code -----

  /** What one visit pushes: a field path and the payloads found there. */
  datatype PayloadField = PayloadField(path: string, ids: seq<int>)

  function Collect(g: Graph, yes: set<string>, m: Message): seq<PayloadField>
    decreases m, 3, 0
  {
    match m
    case PayloadMsg(id) => [PayloadField(PAYLOAD, [id])]
    case PayloadsMsg(ids) => [PayloadField(PAYLOADS, ids)]
    case Opaque(_) => []
    case Struct(t, _) => if t in g.messages then RunAll(g, yes, m, Infos(yes, t, g.messages[t])) else []
  }

  function RunAll(g: Graph, yes: set<string>, m: Message, infos: seq<Info>): seq<PayloadField>
    requires m.Struct?
    decreases m, 2, |infos|
  {
    if infos == [] then [] else RunAll(g, yes, m, infos[..|infos| - 1]) + Run(g, yes, m, infos[|infos| - 1])
  }

  function Run(g: Graph, yes: set<string>, m: Message, info: Info): seq<PayloadField>
    requires m.Struct?
    decreases m, 1, 0
  {
    if info.kind.Oneof? then RunOneof(g, yes, m, info.kind.variants)
    else if info.slot < |m.values| then RunField(g, yes, m.values[info.slot], info)
    else []
  }

  /** The match on the oneof's enum: the arm of the variant that is set, if it has one. */
  function RunOneof(g: Graph, yes: set<string>, m: Message, variants: seq<nat>): seq<PayloadField>
    requires m.Struct?
    decreases m, 0, |variants|
  {
    if variants == [] then []
    else
      var k := variants[|variants| - 1];
      if k < |m.values| && m.values[k].One? then Collect(g, yes, m.values[k].m)
      else RunOneof(g, yes, m, variants[..|variants| - 1])
  }

  function RunField(g: Graph, yes: set<string>, v: Value, info: Info): seq<PayloadField>
    decreases v, 0, 0
  {
    match info.kind
    case SinglePayload => if v.One? && v.m.PayloadMsg? then [PayloadField(info.path, [v.m.id])] else []
    case RepeatedPayload => if v.Many? then [PayloadField(info.path, PayloadIds(v.ms))] else []
    case PayloadsMessage => if v.One? && v.m.PayloadsMsg? then [PayloadField(info.path, v.m.ids)] else []
    case MapPayload => if v.Entries? then PayloadEntries(info.path, v.es) else []
    case MapNested => if v.Entries? then CollectEntries(g, yes, v.es) else []
    case Nested =>
      if LooksRepeated(g, info.path, info.name) then (if v.Many? then CollectMany(g, yes, v.ms) else [])
      else if v.One? then Collect(g, yes, v.m) else []
    case Oneof(_, _, _) => []
  }

  function PayloadIds(ms: seq<Message>): seq<int>
    decreases ms
  {
    if ms == [] then [] else (if ms[0].PayloadMsg? then [ms[0].id] else []) + PayloadIds(ms[1..])
  }

  function PayloadEntries(path: string, es: seq<Entry>): seq<PayloadField>
    decreases es
  {
    if es == [] then []
    else
      (if es[0].value.PayloadMsg? then [PayloadField(path, [es[0].value.id])] else [])
      + PayloadEntries(path, es[1..])
  }

  function CollectMany(g: Graph, yes: set<string>, ms: seq<Message>): seq<PayloadField>
    decreases ms, 0, 0
  {
    if ms == [] then [] else Collect(g, yes, ms[0]) + CollectMany(g, yes, ms[1..])
  }

  function CollectEntries(g: Graph, yes: set<string>, es: seq<Entry>): seq<PayloadField>
    decreases es, 0, 0
  {
    if es == [] then [] else Collect(g, yes, es[0].value) + CollectEntries(g, yes, es[1..])
  }

  function TagAll(path: string, ids: seq<int>): multiset<Tagged>
    decreases |ids|
  {
    if ids == [] then multiset{} else multiset{(path, ids[0])} + TagAll(path, ids[1..])
  }

  /** Everything that was pushed, payload by payload. */
  function Total(fs: seq<PayloadField>): multiset<Tagged>
    decreases |fs|
  {
    if fs == [] then multiset{} else TagAll(fs[0].path, fs[0].ids) + Total(fs[1..])
  }

  // ----- the full traversal -----

  /**
   Payloads directly in a plain field are tagged with that field's path; those met as a oneof
   variant, or as a `Payloads` value of a map, carry their type name.
   */
  predicate TagsByField(msg: Descriptor, f: Field) {
    f.oneofIndex.None? && !(MapValueType(msg, f) == Some(PAYLOADS))
  }

  /** Every payload in the tree, whatever its type: nothing is pruned. */
  function Everything(g: Graph, m: Message): multiset<Tagged>
    decreases m, 3, 0
  {
    match m
    case PayloadMsg(id) => multiset{(PAYLOAD, id)}
    case PayloadsMsg(ids) => TagAll(PAYLOADS, ids)
    case Opaque(_) => multiset{}
    case Struct(t, values) =>
      if t in g.messages && |values| == |g.messages[t].fields| then EverythingUpTo(g, m, |values|) else multiset{}
  }

  function EverythingUpTo(g: Graph, m: Message, k: nat): multiset<Tagged>
    requires m.Struct? && m.typeName in g.messages && k <= |m.values| == |g.messages[m.typeName].fields|
    decreases m, 2, k
  {
    if k == 0 then multiset{} else EverythingUpTo(g, m, k - 1) + AtField(g, m, k - 1)
  }

  function AtField(g: Graph, m: Message, k: nat): multiset<Tagged>
    requires m.Struct? && m.typeName in g.messages && k < |m.values| == |g.messages[m.typeName].fields|
    decreases m, 1, 0
  {
    var msg := g.messages[m.typeName];
    var f := msg.fields[k];
    InValue(g, m.values[k], if TagsByField(msg, f) then Some(FieldPath(m.typeName, f.name)) else None)
  }

  function InValue(g: Graph, v: Value, tag: Option<string>): multiset<Tagged>
    decreases v, 0, 0
  {
    match v
    case Absent => multiset{}
    case One(m) => InMessage(g, m, tag)
    case Many(ms) => InMany(g, ms, tag)
    case Entries(es) => InEntries(g, es, tag)
  }

  function InMessage(g: Graph, m: Message, tag: Option<string>): multiset<Tagged>
    decreases m, 4, 0
  {
    if tag.Some? && m.PayloadMsg? then multiset{(tag.value, m.id)}
    else if tag.Some? && m.PayloadsMsg? then TagAll(tag.value, m.ids)
    else Everything(g, m)
  }

  function InMany(g: Graph, ms: seq<Message>, tag: Option<string>): multiset<Tagged>
    decreases ms, 0, 0
  {
    if ms == [] then multiset{} else InMessage(g, ms[0], tag) + InMany(g, ms[1..], tag)
  }

  function InEntries(g: Graph, es: seq<Entry>, tag: Option<string>): multiset<Tagged>
    decreases es, 0, 0
  {
    if es == [] then multiset{} else InMessage(g, es[0].value, tag) + InEntries(g, es[1..], tag)
  }

  // ----- what generation relies on -----

  /** The marked types are exactly those that can hold a payload. */
  ghost predicate Complete(g: Graph, yes: set<string>) {
    forall n :: n in yes <==> PayloadReach.HoldsPayload(g, n)
  }

  ghost predicate Usable(g: Graph, yes: set<string>) {
    && !g.anyIsPayload
    && AllWellFormed(g)
    && Complete(g, yes)
  }

  // ----- what the generated code compiles for -----

  /** `collect_payload_fields` exists for the two leaf types and for every generated type. */
  predicate HasImpl(g: Graph, yes: set<string>, t: string) {
    IsLeafType(t) || (t in yes && t in g.messages)
  }

  /** A visit type-checks. Coercion and method calls see through a box, and keys are not looked at. */
  ghost predicate Accepts(g: Graph, yes: set<string>, t: string, msg: Descriptor, info: Info) {
    match info.kind
    case Oneof(o, vs, total) =>
      && (forall i :: 0 <= i < |vs| ==>
            && vs[i] < |msg.fields|
            && var rust := TypeOfField(g, t, msg, msg.fields[vs[i]]);
               rust.Variant? && rust.oneof == o && HasImpl(g, yes, rust.t))
      && (|vs| >= total ==>
            forall k :: 0 <= k < |msg.fields| && msg.fields[k].oneofIndex == Some(o) ==> k in vs)
    case _ =>
      && info.slot < |msg.fields|
      && var rust := TypeOfField(g, t, msg, msg.fields[info.slot]);
         match info.kind
         case SinglePayload => rust.OptionOf? && rust.t == PAYLOAD
         case RepeatedPayload => rust == VecOf(PAYLOAD)
         case PayloadsMessage => rust.OptionOf? && rust.t == PAYLOADS
         case MapPayload => rust.MapOf? && rust.t == PAYLOAD
         case MapNested => rust.MapOf? && HasImpl(g, yes, rust.t)
         case Nested =>
           (if LooksRepeated(g, info.path, info.name) then rust.VecOf? else rust.OptionOf?) && HasImpl(g, yes, rust.t)
  }

  // ----- pruning loses nothing -----

  lemma TargetIsSuccessor(g: Graph, t: string, k: nat)
    requires t in g.messages && !Search.IsBase(PayloadReach.TypeGraph(g), t)
    requires k < |g.messages[t].fields| && g.messages[t].fields[k].isMessage
    ensures FieldTarget(g.messages[t], g.messages[t].fields[k]) in Search.Successors(PayloadReach.TypeGraph(g), t)
  {
    TargetsFromComplete(g.messages[t], 0, k);
  }

  /** A well-typed value whose type cannot hold a payload holds none. */
  lemma {:induction false} NothingInside(g: Graph, t: string, m: Message)
    requires WellTyped(g, t, m) && !PayloadReach.HoldsPayload(g, t)
    ensures Everything(g, m) == multiset{}
    ensures !m.PayloadMsg? && !m.PayloadsMsg?
    decreases m, 3, 0
  {
    if Search.IsBase(PayloadReach.TypeGraph(g), t) {
      Search.ReachesBase(PayloadReach.TypeGraph(g), t);
    }
    if m.Struct? { NothingInFields(g, m, |m.values|); }
  }

  lemma {:induction false} NothingInFields(g: Graph, m: Message, k: nat)
    requires m.Struct? && WellTyped(g, m.typeName, m) && !PayloadReach.HoldsPayload(g, m.typeName)
    requires k <= |m.values|
    ensures EverythingUpTo(g, m, k) == multiset{}
    decreases m, 2, k
  {
    if k > 0 {
      NothingInFields(g, m, k - 1);
      var msg := g.messages[m.typeName];
      var f := msg.fields[k - 1];
      FieldCannotHold(g, m.typeName, k - 1);
      assert ValueOk(g, msg, f, m.values[k - 1]);
      NothingInValue(g, msg, f, m.values[k - 1], if TagsByField(msg, f) then Some(FieldPath(m.typeName,
          f.name)) else None);
    }
  }

  /** No field of a type that cannot hold a payload leads to one. */
  lemma FieldCannotHold(g: Graph, t: string, k: nat)
    requires t in g.messages && k < |g.messages[t].fields| && !PayloadReach.HoldsPayload(g, t)
    ensures var msg := g.messages[t];
            msg.fields[k].isMessage ==> !PayloadReach.HoldsPayload(g, FieldTarget(msg, msg.fields[k]))
  {
    var types := PayloadReach.TypeGraph(g);
    var msg := g.messages[t];
    if Search.IsBase(types, t) { Search.ReachesBase(types, t); }
    if msg.fields[k].isMessage && PayloadReach.HoldsPayload(g, FieldTarget(msg, msg.fields[k])) {
      TargetIsSuccessor(g, t, k);
      Search.ReachesStep(types, t, FieldTarget(msg, msg.fields[k]));
    }
  }

  lemma {:induction false} NothingInValue(g: Graph, msg: Descriptor, f: Field, v: Value, tag: Option<string>)
    requires ValueOk(g, msg, f, v)
    requires f.isMessage ==> !PayloadReach.HoldsPayload(g, FieldTarget(msg, f))
    ensures InValue(g, v, tag) == multiset{}
    decreases v, 0, 0
  {
    if f.isMessage {
      match v
      case Absent =>
      case One(m) => NothingInside(g, FieldTarget(msg, f), m);
      case Many(ms) => NothingInMany(g, FieldTarget(msg, f), ms, tag);
      case Entries(es) => NothingInEntries(g, FieldTarget(msg, f), es, tag);
    }
  }

  lemma {:induction false} NothingInMany(g: Graph, t: string, ms: seq<Message>, tag: Option<string>)
    requires (forall m :: m in ms ==> WellTyped(g, t, m)) && !PayloadReach.HoldsPayload(g, t)
    ensures InMany(g, ms, tag) == multiset{}
    decreases ms, 0, 0
  {
    if ms != [] {
      NothingInside(g, t, ms[0]);
      NothingInMany(g, t, ms[1..], tag);
    }
  }

  lemma {:induction false} NothingInEntries(g: Graph, t: string, es: seq<Entry>, tag: Option<string>)
    requires (forall e :: e in es ==> WellTyped(g, t, e.value)) && !PayloadReach.HoldsPayload(g, t)
    ensures InEntries(g, es, tag) == multiset{}
    decreases es, 0, 0
  {
    if es != [] {
      NothingInside(g, t, es[0].value);
      NothingInEntries(g, t, es[1..], tag);
    }
  }

  // ----- the visitor finds everything -----

  /**
   The generated code has no working visit for a proto3 `optional`, for a proto2 `required` and for
   a repeated `Payloads` field.
   */
  predicate FieldSupported(yes: set<string>, msg: Descriptor, f: Field) {
    FieldShape(yes, msg, f).Some? ==>
      if f.oneofIndex.Some? then !f.proto3Optional
      else !f.required && FieldShape(yes, msg, f) != Some(Repeated(PAYLOADS))
  }

  predicate Supported(yes: set<string>, msg: Descriptor) {
    forall k :: 0 <= k < |msg.fields| ==> FieldSupported(yes, msg, msg.fields[k])
  }

  predicate AllSupported(g: Graph, yes: set<string>) {
    forall n :: n in g.messages && n in yes && !IsLeafType(n) ==> Supported(yes, g.messages[n])
  }

  lemma {:induction false} TotalConcat(a: seq<PayloadField>, b: seq<PayloadField>)
    ensures Total(a + b) == Total(a) + Total(b)
    decreases |a|
  {
    if a == [] {
      assert a + b == b;
    } else {
      assert (a + b)[1..] == a[1..] + b;
      TotalConcat(a[1..], b);
    }
  }

  lemma {:induction false} RunAllConcat(g: Graph, yes: set<string>, m: Message, a: seq<Info>, b: seq<Info>)
    requires m.Struct?
    ensures Total(RunAll(g, yes, m, a + b)) == Total(RunAll(g, yes, m, a)) + Total(RunAll(g, yes, m, b))
    decreases |b|
  {
    if b == [] {
      assert a + b == a;
    } else {
      var c := b[..|b| - 1];
      assert (a + b)[..|a + b| - 1] == a + c;
      RunAllConcat(g, yes, m, a, c);
      TotalConcat(RunAll(g, yes, m, a + c), Run(g, yes, m, b[|b| - 1]));
      TotalConcat(RunAll(g, yes, m, c), Run(g, yes, m, b[|b| - 1]));
    }
  }

  lemma RunOneMore(g: Graph, yes: set<string>, m: Message, infos: seq<Info>, info: Info)
    requires m.Struct?
    ensures Total(RunAll(g, yes, m, infos + [info])) == Total(RunAll(g, yes, m, infos)) + Total(Run(g, yes, m, info))
  {
    assert (infos + [info])[..|infos|] == infos;
    TotalConcat(RunAll(g, yes, m, infos), Run(g, yes, m, info));
  }

  lemma FindsRepeated(g: Graph, t: string, k: nat)
    requires t in g.messages && WellFormed(g.messages[t]) && k < |g.messages[t].fields|
    ensures var f := g.messages[t].fields[k]; LooksRepeated(g, FieldPath(t, f.name), f.name) == f.repeated
  {
    var fields := g.messages[t].fields;
    assert FieldOk(g.messages[t], fields[k]);
    ParentOfFieldPath(t, fields[k].name);
    if fields[k].repeated {
      assert fields[k].name == fields[k].name && fields[k].repeated;
    }
    forall i | 0 <= i < |fields| && fields[i].name == fields[k].name ensures i == k {
      assert i < k ==> NamesDiffer(g.messages[t], i, k);
      assert k < i ==> NamesDiffer(g.messages[t], k, i);
    }
  }

  lemma {:induction false} TagPayloads(g: Graph, path: string, ms: seq<Message>)
    requires forall m :: m in ms ==> WellTyped(g, PAYLOAD, m)
    ensures TagAll(path, PayloadIds(ms)) == InMany(g, ms, Some(path))
    decreases |ms|
  {
    if ms != [] {
      assert WellTyped(g, PAYLOAD, ms[0]);
      assert ms[0].PayloadMsg?;
      assert PayloadIds(ms)[1..] == PayloadIds(ms[1..]);
      TagPayloads(g, path, ms[1..]);
    }
  }

  lemma {:induction false} TagEntries(g: Graph, path: string, es: seq<Entry>)
    requires forall e :: e in es ==> WellTyped(g, PAYLOAD, e.value)
    ensures Total(PayloadEntries(path, es)) == InEntries(g, es, Some(path))
    decreases |es|
  {
    if es != [] {
      assert WellTyped(g, PAYLOAD, es[0].value);
      assert es[0].value.PayloadMsg?;
      assert PayloadEntries(path, es)[1..] == PayloadEntries(path, es[1..]);
      assert TagAll(path, [es[0].value.id]) == multiset{(path, es[0].value.id)};
      TagEntries(g, path, es[1..]);
    }
  }

  /**
   For every well-typed message the generated visitor pushes exactly the payloads of the full
   traversal, each once and under the right path.
   */
  lemma {:induction false} CollectsEverything(g: Graph, yes: set<string>, t: string, m: Message)
    requires Usable(g, yes) && AllSupported(g, yes) && WellTyped(g, t, m)
    ensures Total(Collect(g, yes, m)) == Everything(g, m)
    decreases m, 3, 0
  {
    match m
    case PayloadMsg(id) => assert TagAll(PAYLOAD, [id]) == multiset{(PAYLOAD, id)};
    case PayloadsMsg(_) =>
    case Opaque(_) =>
    case Struct(_, _) =>
      var msg := g.messages[t];
      var cs := seq(|m.values|, k requires 0 <= k < |m.values| => AtField(g, m, k));
      assert Contributions(g, m, cs);
      RunAllConcat(g, yes, m, RegularInfos(yes, t, msg, |msg.fields|), OneofInfos(yes, t, msg, |msg.oneofs|));
      SupportedThroughout(g, yes, t);
      forall k | 0 <= k < |cs| ensures RegularGood(g, yes, m, msg, cs, k) { RegularStep(g, yes, m, k); }
      RegularRun(g, yes, m, msg, cs, |cs|);
      forall o | 0 <= o < |msg.oneofs| ensures OneofGood(g, yes, m, msg, cs, o) { OneofIsGood(g, yes, m, msg, cs, o); }
      OneofRun(g, yes, m, msg, cs, |msg.oneofs|);
      forall i | 0 <= i < |msg.fields| && msg.fields[i].oneofIndex.Some?
        ensures msg.fields[i].oneofIndex.value < |msg.oneofs|
      {
        assert FieldOk(msg, msg.fields[i]);
      }
      GroupsPartition(msg.fields, cs, |msg.oneofs|, |msg.fields|);
      EverythingSums(g, m, cs, |cs|);
  }

  /** A type that cannot hold payloads has no field of any payload shape. */
  lemma SupportedThroughout(g: Graph, yes: set<string>, t: string)
    requires Usable(g, yes) && AllSupported(g, yes) && t in g.messages && !IsLeafType(t)
    ensures Supported(yes, g.messages[t])
  {
    var msg := g.messages[t];
    if t !in yes {
      forall k | 0 <= k < |msg.fields| ensures FieldShape(yes, msg, msg.fields[k]).None? {
        FieldCannotHold(g, t, k);
      }
    }
  }

  /** `cs` lists what the full traversal finds field by field. */
  ghost predicate Contributions(g: Graph, m: Message, cs: seq<multiset<Tagged>>) {
    && m.Struct? && m.typeName in g.messages
    && |cs| == |m.values| == |g.messages[m.typeName].fields|
    && forall k :: 0 <= k < |cs| ==> cs[k] == AtField(g, m, k)
  }

  lemma {:induction false} EverythingSums(g: Graph, m: Message, cs: seq<multiset<Tagged>>, k: nat)
    requires Contributions(g, m, cs) && k <= |cs|
    ensures EverythingUpTo(g, m, k) == SumAll(cs, k)
    decreases k
  {
    if k > 0 { EverythingSums(g, m, cs, k - 1); }
  }

  /** Field `k` adds what the full traversal finds there if it is regular, else nothing. */
  ghost predicate RegularGood(g: Graph, yes: set<string>, m: Message, msg: Descriptor, cs: seq<multiset<Tagged>>,
      k: nat) {
    && m.Struct? && k < |cs| == |msg.fields|
    && var before := Total(RunAll(g, yes, m, RegularInfos(yes, m.typeName, msg, k)));
       Total(RunAll(g, yes, m, RegularInfos(yes, m.typeName, msg, k + 1)))
       == if msg.fields[k].oneofIndex.None? then before + cs[k] else before
  }

  lemma {:induction false} RegularRun(g: Graph, yes: set<string>, m: Message, msg: Descriptor,
                                      cs: seq<multiset<Tagged>>, k: nat)
    requires m.Struct? && k <= |cs| == |msg.fields|
    requires forall i :: 0 <= i < |cs| ==> RegularGood(g, yes, m, msg, cs, i)
    ensures Total(RunAll(g, yes, m, RegularInfos(yes, m.typeName, msg, k))) == SumOf(msg.fields, cs, None, k)
    decreases k
  {
    if k > 0 {
      RegularRun(g, yes, m, msg, cs, k - 1);
      assert RegularGood(g, yes, m, msg, cs, k - 1);
    }
  }

  /** One more regular field, as far as the generated code goes. */
  lemma RunRegular(g: Graph, yes: set<string>, m: Message, msg: Descriptor, k: nat)
    requires m.Struct? && k < |msg.fields| == |m.values|
    ensures var before := Total(RunAll(g, yes, m, RegularInfos(yes, m.typeName, msg, k)));
            Total(RunAll(g, yes, m, RegularInfos(yes, m.typeName, msg, k + 1))) ==
            if IsRegular(yes, msg, k) then
              before + Total(RunField(g, yes, m.values[k], RegularInfo(yes, m.typeName, msg, k)))
            else before
  {
    if IsRegular(yes, msg, k) {
      RunOneMore(g, yes, m, RegularInfos(yes, m.typeName, msg, k), RegularInfo(yes, m.typeName, msg, k));
    }
  }

  lemma {:induction false} RegularStep(g: Graph, yes: set<string>, m: Message, k: nat)
    requires Usable(g, yes) && AllSupported(g, yes) && m.Struct? && WellTyped(g, m.typeName, m)
    requires Supported(yes, g.messages[m.typeName]) && k < |m.values|
    ensures var msg := g.messages[m.typeName]; var before := RegularInfos(yes, m.typeName, msg, k);
            Total(RunAll(g, yes, m, RegularInfos(yes, m.typeName, msg, k + 1))) ==
            if msg.fields[k].oneofIndex.None? then Total(RunAll(g, yes, m, before)) + AtField(g, m, k)
            else Total(RunAll(g, yes, m, before))
    decreases m, 2, 0
  {
    var msg := g.messages[m.typeName];
    RunRegular(g, yes, m, msg, k);
    if msg.fields[k].oneofIndex.None? { RegularField(g, yes, m, k); }
  }

  lemma {:induction false} RegularField(g: Graph, yes: set<string>, m: Message, k: nat)
    requires Usable(g, yes) && AllSupported(g, yes) && m.Struct? && WellTyped(g, m.typeName, m)
    requires Supported(yes, g.messages[m.typeName]) && k < |m.values|
    requires g.messages[m.typeName].fields[k].oneofIndex.None?
    ensures var msg := g.messages[m.typeName]; var f := msg.fields[k];
            match FieldShape(yes, msg, f)
            case None => AtField(g, m, k) == multiset{}
            case Some(shape) =>
              Total(RunField(g, yes, m.values[k], Info(f.name, FieldPath(m.typeName, f.name), k, KindOf(shape))))
              == AtField(g, m, k)
    decreases m, 1, 0
  {
    var msg := g.messages[m.typeName];
    var f := msg.fields[k];
    var v := m.values[k];
    var path := FieldPath(m.typeName, f.name);
    assert ValueOk(g, msg, f, v);
    match FieldShape(yes, msg, f)
    case None =>
      NothingInValue(g, msg, f, v, if TagsByField(msg, f) then Some(path) else None);
    case Some(shape) =>
      ShapedField(g, yes, m.typeName, k, v, shape);
  }

  lemma {:induction false} ShapedField(g: Graph, yes: set<string>, t: string, k: nat, v: Value, shape: Shape)
    requires Usable(g, yes) && AllSupported(g, yes)
    requires t in g.messages && Supported(yes, g.messages[t]) && k < |g.messages[t].fields|
    requires g.messages[t].fields[k].oneofIndex.None?
    requires ValueOk(g, g.messages[t], g.messages[t].fields[k], v)
    requires FieldShape(yes, g.messages[t], g.messages[t].fields[k]) == Some(shape)
    ensures var msg := g.messages[t]; var f := msg.fields[k];
            Total(RunField(g, yes, v, Info(f.name, FieldPath(t, f.name), k, KindOf(shape))))
            == InValue(g, v, if TagsByField(msg, f) then Some(FieldPath(t, f.name)) else None)
    decreases v, 1, 0
  {
    var f := g.messages[t].fields[k];
    var info := Info(f.name, FieldPath(t, f.name), k, KindOf(shape));
    FindsRepeated(g, t, k);
    match shape
    case Map(target) => MapVisit(g, yes, info, target, v);
    case Repeated(target) => RepeatedVisit(g, yes, info, target, v);
    case Single(target) => SingleVisit(g, yes, info, target, v);
  }

  lemma TotalOne(path: string, ids: seq<int>)
    ensures Total([PayloadField(path, ids)]) == TagAll(path, ids)
    ensures forall id :: ids == [id] ==> TagAll(path, ids) == multiset{(path, id)}
  {
    var fs := [PayloadField(path, ids)];
    assert Total(fs) == TagAll(fs[0].path, fs[0].ids) + Total(fs[1..]);
    if |ids| == 1 { assert TagAll(path, ids) == multiset{(path, ids[0])} + TagAll(path, ids[1..]); }
  }

  lemma {:induction false} MapVisit(g: Graph, yes: set<string>, info: Info, target: string, v: Value)
    requires Usable(g, yes) && AllSupported(g, yes) && info.kind == KindOf(Map(target))
    requires v.Entries? && forall e :: e in v.es ==> WellTyped(g, target, e.value)
    ensures Total(RunField(g, yes, v, info)) == InValue(g, v, if target == PAYLOADS then None else Some(info.path))
    decreases v, 0, 0
  {
    var tag := if target == PAYLOADS then None else Some(info.path);
    if target == PAYLOAD {
      TagEntries(g, info.path, v.es);
    } else {
      CollectsEntries(g, yes, target, v.es, tag);
    }
    MapTotal(g, yes, info, target, v, tag);
  }

  lemma MapTotal(g: Graph, yes: set<string>, info: Info, target: string, v: Value, tag: Option<string>)
    requires v.Entries? && info.kind == KindOf(Map(target))
    requires target == PAYLOAD ==> Total(PayloadEntries(info.path, v.es)) == InEntries(g, v.es, tag)
    requires target != PAYLOAD ==> Total(CollectEntries(g, yes, v.es)) == InEntries(g, v.es, tag)
    ensures Total(RunField(g, yes, v, info)) == InValue(g, v, tag)
  {
  }

  lemma {:induction false} RepeatedVisit(g: Graph, yes: set<string>, info: Info, target: string, v: Value)
    requires Usable(g, yes) && AllSupported(g, yes) && info.kind == KindOf(Repeated(target)) && target != PAYLOADS
    requires LooksRepeated(g, info.path, info.name)
    requires v.Many? && forall m :: m in v.ms ==> WellTyped(g, target, m)
    ensures Total(RunField(g, yes, v, info)) == InValue(g, v, Some(info.path))
    decreases v, 0, 0
  {
    if target == PAYLOAD {
      TagPayloads(g, info.path, v.ms);
      TotalOne(info.path, PayloadIds(v.ms));
    } else {
      CollectsMany(g, yes, target, v.ms, Some(info.path));
    }
    RepeatedTotal(g, yes, info, target, v);
  }

  lemma RepeatedTotal(g: Graph, yes: set<string>, info: Info, target: string, v: Value)
    requires v.Many? && info.kind == KindOf(Repeated(target)) && target != PAYLOADS
    requires LooksRepeated(g, info.path, info.name)
    requires target == PAYLOAD ==>
               Total([PayloadField(info.path, PayloadIds(v.ms))]) == InMany(g, v.ms, Some(info.path))
    requires target != PAYLOAD ==> Total(CollectMany(g, yes, v.ms)) == InMany(g, v.ms, Some(info.path))
    ensures Total(RunField(g, yes, v, info)) == InValue(g, v, Some(info.path))
  {
  }

  lemma {:induction false} SingleVisit(g: Graph, yes: set<string>, info: Info, target: string, v: Value)
    requires Usable(g, yes) && AllSupported(g, yes) && info.kind == KindOf(Single(target))
    requires !LooksRepeated(g, info.path, info.name)
    requires v == Absent || (v.One? && WellTyped(g, target, v.m))
    ensures Total(RunField(g, yes, v, info)) == InValue(g, v, Some(info.path))
    decreases v, 0, 0
  {
    if v.One? {
      if target == PAYLOAD {
        TotalOne(info.path, [v.m.id]);
      } else if target == PAYLOADS {
        TotalOne(info.path, v.m.ids);
      } else {
        CollectsEverything(g, yes, target, v.m);
      }
      SingleTotal(g, yes, info, target, v.m);
    }
  }

  lemma SingleTotal(g: Graph, yes: set<string>, info: Info, target: string, m: Message)
    requires info.kind == KindOf(Single(target)) && !LooksRepeated(g, info.path, info.name)
    requires if target == PAYLOAD then
               m.PayloadMsg? && Total([PayloadField(info.path, [m.id])]) == multiset{(info.path, m.id)}
             else if target == PAYLOADS then
               m.PayloadsMsg? && Total([PayloadField(info.path, m.ids)]) == TagAll(info.path, m.ids)
             else !m.PayloadMsg? && !m.PayloadsMsg? && Total(Collect(g, yes, m)) == Everything(g, m)
    ensures Total(RunField(g, yes, One(m), info)) == InValue(g, One(m), Some(info.path))
  {
  }

  lemma {:induction false} CollectsMany(g: Graph, yes: set<string>, t: string, ms: seq<Message>, tag: Option<string>)
    requires Usable(g, yes) && AllSupported(g, yes) && (forall m :: m in ms ==> WellTyped(g, t, m))
    requires tag.None? || !IsLeafType(t)
    ensures Total(CollectMany(g, yes, ms)) == InMany(g, ms, tag)
    decreases ms, 0, 0
  {
    if ms != [] {
      CollectsEverything(g, yes, t, ms[0]);
      CollectsMany(g, yes, t, ms[1..], tag);
      TotalConcat(Collect(g, yes, ms[0]), CollectMany(g, yes, ms[1..]));
    }
  }

  lemma {:induction false} CollectsEntries(g: Graph, yes: set<string>, t: string, es: seq<Entry>, tag: Option<string>)
    requires Usable(g, yes) && AllSupported(g, yes) && (forall e :: e in es ==> WellTyped(g, t, e.value))
    requires tag.None? || !IsLeafType(t)
    ensures Total(CollectEntries(g, yes, es)) == InEntries(g, es, tag)
    decreases es, 0, 0
  {
    if es != [] {
      CollectsEverything(g, yes, t, es[0].value);
      CollectsEntries(g, yes, t, es[1..], tag);
      TotalConcat(Collect(g, yes, es[0].value), CollectEntries(g, yes, es[1..]));
    }
  }

  /** The match on oneof `o` adds what the full traversal finds in its members. */
  ghost predicate OneofGood(g: Graph, yes: set<string>, m: Message, msg: Descriptor, cs: seq<multiset<Tagged>>,
      o: nat) {
    && m.Struct? && |cs| == |msg.fields|
    && Total(RunOneof(g, yes, m, Variants(yes, msg, o, |msg.fields|))) == SumOf(msg.fields, cs, Some(o), |cs|)
  }

  lemma {:induction false} OneofRun(g: Graph, yes: set<string>, m: Message, msg: Descriptor,
                                    cs: seq<multiset<Tagged>>, o: nat)
    requires m.Struct? && |cs| == |msg.fields| && o <= |msg.oneofs|
    requires forall i :: 0 <= i < |msg.oneofs| ==> OneofGood(g, yes, m, msg, cs, i)
    ensures Total(RunAll(g, yes, m, OneofInfos(yes, m.typeName, msg, o))) == SumGroups(msg.fields, cs, o, |cs|)
    decreases o
  {
    if o > 0 {
      OneofRun(g, yes, m, msg, cs, o - 1);
      assert OneofGood(g, yes, m, msg, cs, o - 1);
      if HasVariants(yes, msg, o - 1) {
        RunOneMore(g, yes, m, OneofInfos(yes, m.typeName, msg, o - 1), OneofInfo(yes, m.typeName, msg, o - 1));
      }
    }
  }

  /** What member `k` does to the outcome of the match on its oneof. */
  ghost predicate MemberGood(g: Graph, yes: set<string>, m: Message, msg: Descriptor, cs: seq<multiset<Tagged>>,
      o: nat, k: nat) {
    && m.Struct? && k < |cs| == |msg.fields|
    && var before := RunOneof(g, yes, m, Variants(yes, msg, o, k));
       var after := RunOneof(g, yes, m, Variants(yes, msg, o, k + 1));
       if msg.fields[k].oneofIndex == Some(o) then
         (after == before && cs[k] == multiset{}) || (before == [] && Total(after) == cs[k])
       else after == before
  }

  lemma {:induction false} GroupRun(g: Graph, yes: set<string>, m: Message, msg: Descriptor,
                                    cs: seq<multiset<Tagged>>, o: nat, k: nat)
    requires m.Struct? && k <= |cs| == |msg.fields|
    requires forall i :: 0 <= i < |cs| ==> MemberGood(g, yes, m, msg, cs, o, i)
    ensures Total(RunOneof(g, yes, m, Variants(yes, msg, o, k))) == SumOf(msg.fields, cs, Some(o), k)
    decreases k
  {
    if k > 0 {
      GroupRun(g, yes, m, msg, cs, o, k - 1);
      assert MemberGood(g, yes, m, msg, cs, o, k - 1);
    }
  }

  lemma {:induction false} OneofIsGood(g: Graph, yes: set<string>, m: Message, msg: Descriptor,
                                       cs: seq<multiset<Tagged>>, o: nat)
    requires Contributions(g, m, cs) && WellTyped(g, m.typeName, m) && msg == g.messages[m.typeName]
    requires Usable(g, yes) && AllSupported(g, yes)
    ensures OneofGood(g, yes, m, msg, cs, o)
    decreases m, 1, 1
  {
    forall k | 0 <= k < |cs| ensures MemberGood(g, yes, m, msg, cs, o, k) {
      if msg.fields[k].oneofIndex == Some(o) {
        GroupStep(g, yes, m, o, k);
        if m.values[k] != Absent { NoneBefore(g, yes, m, o, k, k); }
      }
    }
    GroupRun(g, yes, m, msg, cs, o, |cs|);
  }

  /** Only one member of a oneof is set, so no earlier arm can run. */
  lemma {:induction false} NoneBefore(g: Graph, yes: set<string>, m: Message, o: nat, i: nat, k: nat)
    requires m.Struct? && WellTyped(g, m.typeName, m) && k <= i < |m.values|
    requires g.messages[m.typeName].fields[i].oneofIndex == Some(o) && m.values[i] != Absent
    ensures RunOneof(g, yes, m, Variants(yes, g.messages[m.typeName], o, k)) == []
    decreases k
  {
    var msg := g.messages[m.typeName];
    if k > 0 {
      NoneBefore(g, yes, m, o, i, k - 1);
      if IsVariant(yes, msg.fields[k - 1], o) {
        var before := Variants(yes, msg, o, k - 1);
        assert (before + [k - 1])[..|before|] == before;
        assert PairExclusive(msg, m.values, k - 1, i);
      }
    }
  }

  lemma {:induction false} GroupStep(g: Graph, yes: set<string>, m: Message, o: nat, k: nat)
    requires Usable(g, yes) && AllSupported(g, yes) && m.Struct? && WellTyped(g, m.typeName, m)
    requires k < |m.values| && g.messages[m.typeName].fields[k].oneofIndex == Some(o)
    ensures var msg := g.messages[m.typeName]; var before := RunOneof(g, yes, m, Variants(yes, msg, o, k));
            var after := RunOneof(g, yes, m, Variants(yes, msg, o, k + 1));
            && (m.values[k] == Absent ==> after == before && AtField(g, m, k) == multiset{})
            && (m.values[k] != Absent ==>
                  Total(after) == AtField(g, m, k) || (after == before && AtField(g, m, k) == multiset{}))
    decreases m, 1, 0
  {
    var msg := g.messages[m.typeName];
    var f := msg.fields[k];
    var before := Variants(yes, msg, o, k);
    assert FieldOk(msg, f) && ValueOk(g, msg, f, m.values[k]);
    assert (before + [k])[..|before|] == before;
    if m.values[k] != Absent { VariantVisit(g, yes, m.typeName, k, m.values[k].m); }
  }

  lemma {:induction false} VariantVisit(g: Graph, yes: set<string>, t: string, k: nat, child: Message)
    requires Usable(g, yes) && AllSupported(g, yes) && t in g.messages && k < |g.messages[t].fields|
    requires var f := g.messages[t].fields[k];
             f.isMessage && f.oneofIndex.Some? && FieldOk(g.messages[t], f) && WellTyped(g, OwnType(f), child)
    ensures Total(Collect(g, yes, child)) == InValue(g, One(child), None)
    ensures OwnType(g.messages[t].fields[k]) !in yes ==> InValue(g, One(child), None) == multiset{}
    decreases child, 4, 0
  {
    var f := g.messages[t].fields[k];
    CollectsEverything(g, yes, OwnType(f), child);
    if OwnType(f) !in yes { NothingInside(g, OwnType(f), child); }
  }

  // ----- which descriptors the generated code compiles for -----

  ghost predicate Compiles(g: Graph, yes: set<string>) {
    forall t :: t in g.messages && t in yes && !IsLeafType(t) ==> ImplCompiles(g, yes, t)
  }

  ghost predicate ImplCompiles(g: Graph, yes: set<string>, t: string)
    requires t in g.messages
  {
    var infos := Infos(yes, t, g.messages[t]);
    forall i :: 0 <= i < |infos| ==> Accepts(g, yes, t, g.messages[t], infos[i])
  }

  lemma MarkedHasImpl(g: Graph, yes: set<string>, t: string)
    requires Usable(g, yes) && t in yes
    ensures HasImpl(g, yes, t)
  {
    if !Search.IsBase(PayloadReach.TypeGraph(g), t) {
      var next := Search.ReachesSuccessor(PayloadReach.TypeGraph(g), t);
    }
  }

  lemma {:induction false} RegularInfoOf(yes: set<string>, t: string, msg: Descriptor, k: nat, info: Info)
    returns (i: nat)
    requires k <= |msg.fields| && info in RegularInfos(yes, t, msg, k)
    ensures IsRegular(yes, msg, i) && info == RegularInfo(yes, t, msg, i)
    decreases k
  {
    if IsRegular(yes, msg, k - 1) && info == RegularInfo(yes, t, msg, k - 1) {
      i := k - 1;
    } else {
      i := RegularInfoOf(yes, t, msg, k - 1, info);
    }
  }

  lemma {:induction false} RegularInfoListed(yes: set<string>, t: string, msg: Descriptor, k: nat, i: nat)
    requires i < k <= |msg.fields| && IsRegular(yes, msg, i)
    ensures RegularInfo(yes, t, msg, i) in RegularInfos(yes, t, msg, k)
    decreases k
  {
    if i < k - 1 { RegularInfoListed(yes, t, msg, k - 1, i); }
  }

  /** The catch-all arm is left out exactly when there is a variant for every member of the oneof. */
  lemma {:induction false} VariantsAre(yes: set<string>, msg: Descriptor, o: nat, k: nat)
    requires k <= |msg.fields|
    ensures forall i :: i in Variants(yes, msg, o, k) <==> 0 <= i < k && IsVariant(yes, msg.fields[i], o)
    ensures |Variants(yes, msg, o, k)| <= GroupSize(msg, o, k)
    ensures |Variants(yes, msg, o, k)| == GroupSize(msg, o, k) <==>
            forall i :: 0 <= i < k && msg.fields[i].oneofIndex == Some(o) ==> i in Variants(yes, msg, o, k)
    decreases k
  {
    if k > 0 { VariantsAre(yes, msg, o, k - 1); }
  }

  lemma {:induction false} OneofInfoOf(yes: set<string>, t: string, msg: Descriptor, o: nat, info: Info)
    returns (i: nat)
    requires o <= |msg.oneofs| && info in OneofInfos(yes, t, msg, o)
    ensures HasVariants(yes, msg, i) && info == OneofInfo(yes, t, msg, i)
    decreases o
  {
    if HasVariants(yes, msg, o - 1) && info == OneofInfo(yes, t, msg, o - 1) {
      i := o - 1;
    } else {
      i := OneofInfoOf(yes, t, msg, o - 1, info);
    }
  }

  lemma {:induction false} OneofInfoListed(yes: set<string>, t: string, msg: Descriptor, o: nat, i: nat)
    requires i < o <= |msg.oneofs| && HasVariants(yes, msg, i)
    ensures OneofInfo(yes, t, msg, i) in OneofInfos(yes, t, msg, o)
    decreases o
  {
    if i < o - 1 { OneofInfoListed(yes, t, msg, o - 1, i); }
  }

  /** A regular visit fits the field's type exactly if the field is neither `required` nor a repeated `Payloads`. */
  lemma RegularAccepted(g: Graph, yes: set<string>, t: string, k: nat)
    requires Usable(g, yes) && t in g.messages && IsRegular(yes, g.messages[t], k)
    ensures Accepts(g, yes, t, g.messages[t], RegularInfo(yes, t, g.messages[t], k))
            <==> FieldSupported(yes, g.messages[t], g.messages[t].fields[k])
  {
    assert FieldOk(g.messages[t], g.messages[t].fields[k]);
    FindsRepeated(g, t, k);
    MarkedHasImpl(g, yes, FieldShape(yes, g.messages[t], g.messages[t].fields[k]).value.target);
  }

  /** A oneof's enum match fits exactly when none of its payload variants is a proto3 `optional`. */
  lemma OneofAccepted(g: Graph, yes: set<string>, t: string, o: nat)
    requires Usable(g, yes) && t in g.messages && HasVariants(yes, g.messages[t], o)
    ensures var msg := g.messages[t];
            Accepts(g, yes, t, msg, OneofInfo(yes, t, msg, o))
            <==> forall i :: 0 <= i < |msg.fields| && IsVariant(yes, msg.fields[i], o) ==> !msg.fields[i].proto3Optional
  {
    var msg := g.messages[t];
    var vs := Variants(yes, msg, o, |msg.fields|);
    VariantsAre(yes, msg, o, |msg.fields|);
    forall i | 0 <= i < |vs|
      ensures vs[i] < |msg.fields| && FieldOk(msg, msg.fields[vs[i]]) && HasImpl(g, yes, OwnType(msg.fields[vs[i]]))
    {
      assert vs[i] in vs;
      MarkedHasImpl(g, yes, OwnType(msg.fields[vs[i]]));
    }
    forall k | 0 <= k < |msg.fields| && IsVariant(yes, msg.fields[k], o)
      ensures exists i :: 0 <= i < |vs| && vs[i] == k
    {
      assert k in vs;
    }
  }

  lemma ImplCompilesIffSupported(g: Graph, yes: set<string>, t: string)
    requires Usable(g, yes) && t in g.messages
    ensures ImplCompiles(g, yes, t) <==> Supported(yes, g.messages[t])
  {
    var msg := g.messages[t];
    var regular, oneofs := RegularInfos(yes, t, msg, |msg.fields|), OneofInfos(yes, t, msg, |msg.oneofs|);
    if Supported(yes, msg) {
      forall info | info in Infos(yes, t, msg) ensures Accepts(g, yes, t, msg, info) {
        if info in regular {
          var k := RegularInfoOf(yes, t, msg, |msg.fields|, info);
          RegularAccepted(g, yes, t, k);
        } else {
          assert info in oneofs;
          var o := OneofInfoOf(yes, t, msg, |msg.oneofs|, info);
          VariantShapes(g, yes, t, o);
          OneofAccepted(g, yes, t, o);
        }
      }
    } else {
      UnsupportedRejected(g, yes, t);
    }
  }

  lemma VariantShapes(g: Graph, yes: set<string>, t: string, o: nat)
    requires AllWellFormed(g) && t in g.messages
    ensures var msg := g.messages[t];
            forall i :: 0 <= i < |msg.fields| && msg.fields[i].oneofIndex == Some(o) ==>
              (IsVariant(yes, msg.fields[i], o) <==> FieldShape(yes, msg, msg.fields[i]).Some?)
  {
    var msg := g.messages[t];
    forall i | 0 <= i < |msg.fields| && msg.fields[i].oneofIndex == Some(o)
      ensures IsVariant(yes, msg.fields[i], o) <==> FieldShape(yes, msg, msg.fields[i]).Some?
    {
      assert FieldOk(msg, msg.fields[i]);
    }
  }

  lemma UnsupportedRejected(g: Graph, yes: set<string>, t: string)
    requires Usable(g, yes) && t in g.messages && !Supported(yes, g.messages[t])
    ensures !ImplCompiles(g, yes, t)
  {
    var msg := g.messages[t];
    var infos := Infos(yes, t, msg);
    var k :| 0 <= k < |msg.fields| && !FieldSupported(yes, msg, msg.fields[k]);
    var info;
    if msg.fields[k].oneofIndex.None? {
      RegularAccepted(g, yes, t, k);
      info := RegularInfo(yes, t, msg, k);
      RegularInfoListed(yes, t, msg, |msg.fields|, k);
    } else {
      var o := msg.fields[k].oneofIndex.value;
      assert FieldOk(msg, msg.fields[k]);
      VariantShapes(g, yes, t, o);
      VariantsAre(yes, msg, o, |msg.fields|);
      assert k in Variants(yes, msg, o, |msg.fields|);
      OneofAccepted(g, yes, t, o);
      info := OneofInfo(yes, t, msg, o);
      OneofInfoListed(yes, t, msg, |msg.oneofs|, o);
    }
    assert info in infos;
    var i :| 0 <= i < |infos| && infos[i] == info;
  }

  /**
   The generated code type-checks if and only if no payload-bearing field is a repeated
   `Payloads`, a proto3 `optional` or a proto2 `required`.
   */
  lemma CompilesIffSupported(g: Graph, yes: set<string>)
    requires Usable(g, yes)
    ensures Compiles(g, yes) <==> AllSupported(g, yes)
  {
    forall t | t in g.messages ensures ImplCompiles(g, yes, t) <==> Supported(yes, g.messages[t]) {
      ImplCompilesIffSupported(g, yes, t);
    }
  }

  // ----- the whole generator -----

  /** What `build` marks when it takes the names in this order. */
  ghost function Marked(g: Graph, names: seq<string>): set<string> {
    Search.CheckEach(PayloadReach.TypeGraph(g), Search.Nothing(), names).yes
  }

  /** The descriptor set has the payload types themselves. */
  predicate HasBases(g: Graph) {
    PAYLOAD in g.messages && PAYLOADS in g.messages && (g.anyIsPayload ==> ANY in g.messages)
  }

  /** What the search marks, whatever order it runs in, is what generation relies on. */
  lemma SearchIsComplete(g: Graph, names: seq<string>)
    requires HasBases(g)
    requires Search.NoTrap(PayloadReach.TypeGraph(g)) && Search.IsOrder(PayloadReach.TypeGraph(g), names)
    ensures Complete(g, Marked(g, names))
  {
    var types := PayloadReach.TypeGraph(g);
    var marks := Search.CheckEach(types, Search.Nothing(), names);
    Search.ExactIffNoTrap(types);
    Search.MarkedTypesReach(types, names);
    assert types.edges.Keys == g.messages.Keys;
    forall n | PayloadReach.HoldsPayload(g, n) ensures n in marks.yes {
      if !Search.IsBase(types, n) { var next := Search.ReachesSuccessor(types, n); }
      assert n in g.messages;
    }
  }

  /**
   Descriptors in, payloads out: search, generate, compile, run. Every message of every known
   type yields exactly its payloads.
   */
  lemma GeneratedVisitorIsExact(g: Graph, names: seq<string>, t: string, m: Message)
    requires !g.anyIsPayload && AllWellFormed(g) && HasBases(g)
    requires Search.NoTrap(PayloadReach.TypeGraph(g)) && Search.IsOrder(PayloadReach.TypeGraph(g), names)
    requires Compiles(g, Marked(g, names)) && WellTyped(g, t, m)
    ensures Total(Collect(g, Marked(g, names), m)) == Everything(g, m)
  {
    SearchIsComplete(g, names);
    CompilesIffSupported(g, Marked(g, names));
    CollectsEverything(g, Marked(g, names), t, m);
  }
}
