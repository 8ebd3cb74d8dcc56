/**
 What becomes of the generated payload-limits validators: which descriptors they compile for, which
 policy tables the build accepts, and what a message then goes through, from descriptors to checks.
 */
module LimitsBuild {
  import opened Common
  import opened Descriptors
  import opened MessageTree
  import opened PayloadLimits
  import opened RustTypes
  import opened LimitsValidator
  import Search = GraphSearch
  import PayloadReach
  import V = PayloadVisitor

  // ----- which types the emitted code compiles for -----

  /** The type has a `map<string, Payload>` field of this name. */
  predicate HasPayloadMap(g: Graph, t: string, name: string) {
    t in g.messages && exists k :: 0 <= k < |g.messages[t].fields| && IsPayloadMap(g.messages[t], k, name)
  }

  predicate IsPayloadMap(msg: Descriptor, k: nat, name: string) {
    && k < |msg.fields| && msg.fields[k].name == name
    && MapValueType(msg, msg.fields[k]) == Some(PAYLOAD) && HasTextKeys(msg, msg.fields[k])
  }

  lemma PayloadMapIff(g: Graph, t: string, k: nat)
    requires t in g.messages && WellFormed(g.messages[t]) && k < |g.messages[t].fields|
    ensures var msg, f := g.messages[t], g.messages[t].fields[k];
            HasPayloadMap(g, t, f.name) <==> MapValueType(msg, f) == Some(PAYLOAD) && HasTextKeys(msg, f)
  {
    var msg := g.messages[t];
    forall j: nat | j < |msg.fields| && j != k ensures msg.fields[j].name != msg.fields[k].name {
      assert j < k ==> NamesDiffer(msg, j, k);
      assert k < j ==> NamesDiffer(msg, k, j);
    }
    assert HasPayloadMap(g, t, msg.fields[k].name) <==> IsPayloadMap(msg, k, msg.fields[k].name);
  }

  /** The size expression of a check type-checks; coercions and the message trait see through a box. */
  predicate SizeFits(g: Graph, rust: RustType, kind: LeafKind) {
    match kind
    case SinglePayloads => rust.t == PAYLOADS
    case SinglePayload => rust.t == PAYLOAD
    case SingleMemo => rust.t == MEMO
    case MemoFieldsDataSum => HasPayloadMap(g, rust.t, "fields")
    case SingleHeader => HasPayloadMap(g, rust.t, "fields")
    case SingleSearchAttributes => HasPayloadMap(g, rust.t, "indexed_fields")
    case WholeMessage => true
    case RepeatedPayload => rust.VecOf? && rust.t == PAYLOAD
    case RepeatedWholeMessage => rust.VecOf?
    case MapPayload => rust.MapOf? && rust.textKeys && rust.t == PAYLOAD
    case MapPayloads => rust.MapOf? && rust.textKeys && rust.t == PAYLOADS
  }

  /** A recursive call names the trait, so it needs an impl for exactly this type, and a box has none. */
  predicate CallFits(impls: set<string>, rust: RustType) {
    rust.t in impls && ((rust.OptionOf? || rust.Variant?) ==> !rust.boxed)
  }

  ghost predicate ArmAccepted(g: Graph, ty: Type, impls: set<string>, o: nat, arm: Arm) {
    && arm.slot < |ty.msg.fields|
    && var rust := TypeOfField(g, ty.name, ty.msg, ty.msg.fields[arm.slot]);
       && rust.Variant? && rust.oneof == o
       && match arm.action
          case ArmCheck(c) => SizeFits(g, rust, c.kind)
          case ArmNothing => true
          case ArmDescend(_) => CallFits(impls, rust)
  }

  ghost predicate ArmsAccepted(g: Graph, ty: Type, impls: set<string>, o: nat, arms: seq<Arm>) {
    forall i :: 0 <= i < |arms| ==> ArmAccepted(g, ty, impls, o, arms[i])
  }

  /** Without a catch-all arm, every member of the oneof needs one of its own. */
  predicate Exhaustive(msg: Descriptor, o: nat, arms: seq<Arm>) {
    forall k :: 0 <= k < |msg.fields| && msg.fields[k].oneofIndex == Some(o) ==> HasArm(arms, k)
  }

  predicate HasArm(arms: seq<Arm>, k: nat) {
    exists i :: 0 <= i < |arms| && arms[i].slot == k
  }

  /** The statement type-checks against the struct prost generates. */
  ghost predicate Accepted(g: Graph, ty: Type, impls: set<string>, stmt: Stmt) {
    match stmt
    case CheckIfSet(k, c) =>
      && k < |ty.msg.fields|
      && var rust := TypeOfField(g, ty.name, ty.msg, ty.msg.fields[k]);
         rust.OptionOf? && SizeFits(g, rust, c.kind)
    case CheckAlways(k, c) =>
      k < |ty.msg.fields| && SizeFits(g, TypeOfField(g, ty.name, ty.msg, ty.msg.fields[k]), c.kind)
    case Descend(k, _, shape) =>
      && k < |ty.msg.fields|
      && var rust := TypeOfField(g, ty.name, ty.msg, ty.msg.fields[k]);
         (match shape
          case OneStruct => rust.OptionOf?
          case RepeatedStruct => rust.VecOf?
          case MapStruct => rust.MapOf? && rust.textKeys)
         && CallFits(impls, rust)
    case MatchOneof(o, arms, total) =>
      ArmsAccepted(g, ty, impls, o, arms) && (|arms| >= total ==> Exhaustive(ty.msg, o, arms))
  }

  ghost predicate BodyAccepted(g: Graph, ty: Type, impls: set<string>, body: seq<Stmt>) {
    forall i :: 0 <= i < |body| ==> Accepted(g, ty, impls, body[i])
  }

  /** The type that a check of this kind measures has the map that the check sums up. */
  predicate Measurable(g: Graph, kind: LeafKind) {
    match kind
    case MemoFieldsDataSum => HasPayloadMap(g, MEMO, "fields")
    case SingleHeader => HasPayloadMap(g, HEADER, "fields")
    case SingleSearchAttributes => HasPayloadMap(g, SEARCH_ATTRIBUTES, "indexed_fields")
    case _ => true
  }

  /** A member of the oneof that stands for a proto3 `optional`. */
  predicate IsSynthetic(f: Field) { f.oneofIndex.Some? && f.proto3Optional }

  predicate OtherKeys(msg: Descriptor, f: Field) { MapValueType(msg, f).Some? && !HasTextKeys(msg, f) }

  /** The check of a leaf field compiles. */
  predicate LeafFits(g: Graph, table: Table, path: string, msg: Descriptor, f: Field, kind: LeafKind) {
    var c := LeafCheck(table, path, f.name, kind);
    && !IsSynthetic(f)
    && (c.Some? ==>
          !(Guarded(kind) && f.repeated) && !f.required && !OtherKeys(msg, f) && Measurable(g, c.value.kind))
  }

  /** The recursive call for a structural field compiles, if there is an impl to call. */
  ghost predicate InnerFits(g: Graph, t: string, msg: Descriptor, f: Field, shape: StructShape) {
    !IsSynthetic(f) && !f.required && !OtherKeys(msg, f) && !(shape == OneStruct && Boxed(g, t, f))
  }

  /** What a field must satisfy for its statement or arm to compile. */
  ghost predicate FieldFits(g: Graph, table: Table, t: Type, impls: set<string>, k: nat)
    requires Matched(t) && k < |t.targets|
  {
    var f := t.msg.fields[k];
    match t.targets[k]
    case Leaf(kind) => LeafFits(g, table, PathAt(t, k), t.msg, f, kind)
    case Inner(shape, inner) => inner in impls && InnerFits(g, t.name, t.msg, f, shape)
    case Skip => true
    case Panic => true
  }

  /** The one type that is measured this way, but for whole messages. */
  lemma MeasuredType(t: string, kind: LeafKind)
    requires TerminalKind(t, false) == Some(kind)
    ensures kind == SinglePayload ==> t == PAYLOAD
    ensures kind == SinglePayloads ==> t == PAYLOADS
    ensures kind == SingleMemo ==> t == MEMO
    ensures kind == SingleHeader ==> t == HEADER
    ensures kind == SingleSearchAttributes ==> t == SEARCH_ATTRIBUTES
    ensures Guarded(kind) && kind != MemoFieldsDataSum
  {
  }

  /** The size of a singular terminal value. */
  lemma SingularSize(g: Graph, rust: RustType, kind: LeafKind, limit: LimitClass)
    requires TerminalKind(rust.t, false) == Some(kind)
    ensures SizeFits(g, rust, EffectiveKind(kind, limit)) <==> Measurable(g, EffectiveKind(kind, limit))
  {
    MeasuredType(rust.t, kind);
  }

  /** A leaf field outside every oneof that is measured only if it is set. */
  lemma GuardedType(g: Graph, yes: set<string>, t: string, msg: Descriptor, f: Field, kind: LeafKind)
    requires FieldOk(msg, f) && f.oneofIndex.None? && Classify(yes, msg, f) == Leaf(kind) && Guarded(kind)
    ensures MapValueType(msg, f).None?
    ensures var rust := TypeOfField(g, t, msg, f);
            (rust.OptionOf? <==> !f.repeated && !f.required) && TerminalKind(rust.t, false) == Some(kind)
  {
    assert V.FieldShape(yes, msg, f).Some?;
  }

  /** A leaf field outside every oneof that is always measured. */
  lemma UnguardedType(g: Graph, yes: set<string>, t: string, msg: Descriptor, f: Field, kind: LeafKind)
    requires FieldOk(msg, f) && f.oneofIndex.None? && Classify(yes, msg, f) == Leaf(kind) && !Guarded(kind)
    ensures !f.required && Measurable(g, kind)
    ensures SizeFits(g, TypeOfField(g, t, msg, f), kind) <==> !OtherKeys(msg, f)
  {
    if MapValueType(msg, f).None? { assert f.repeated; }
  }

  /** A structural field outside every oneof. */
  lemma InnerType(g: Graph, yes: set<string>, t: string, msg: Descriptor, f: Field)
    requires FieldOk(msg, f) && f.oneofIndex.None? && Classify(yes, msg, f).Inner?
    ensures var rust, target := TypeOfField(g, t, msg, f), Classify(yes, msg, f);
            match target.shape
            case OneStruct =>
              && MapValueType(msg, f).None?
              && rust == if f.required then Bare(target.t, Boxed(g, t, f)) else OptionOf(target.t, Boxed(g, t, f))
            case RepeatedStruct => rust == VecOf(target.t) && MapValueType(msg, f).None? && !f.required
            case MapStruct => rust == MapOf(target.t, HasTextKeys(msg, f)) && MapValueType(msg, f).Some? && !f.required
  {
  }

  lemma RegularLeafAccepted(g: Graph, yes: set<string>, table: Table, t: Type, impls: set<string>, k: nat)
    requires Matched(t) && k < |t.targets| && t.msg.fields[k].oneofIndex.None? && FieldOk(t.msg, t.msg.fields[k])
    requires t.targets[k] == Classify(yes, t.msg, t.msg.fields[k]) && t.targets[k].Leaf?
    requires LeafCheck(table, PathAt(t, k), t.msg.fields[k].name, t.targets[k].kind).Some?
    ensures Accepted(g, t, impls, FieldBody(table, t, k)[0]) <==> FieldFits(g, table, t, impls, k)
  {
    var f, kind := t.msg.fields[k], t.targets[k].kind;
    var limit := table[PathAt(t, k)].limit;
    if Guarded(kind) {
      GuardedType(g, yes, t.name, t.msg, f, kind);
      SingularSize(g, TypeOfField(g, t.name, t.msg, f), kind, limit);
    } else {
      UnguardedType(g, yes, t.name, t.msg, f, kind);
    }
  }

  lemma RegularInnerAccepted(g: Graph, yes: set<string>, table: Table, t: Type, impls: set<string>, k: nat)
    requires Matched(t) && k < |t.targets| && t.msg.fields[k].oneofIndex.None? && FieldOk(t.msg, t.msg.fields[k])
    requires t.targets[k] == Classify(yes, t.msg, t.msg.fields[k]) && t.targets[k].Inner?
    ensures Accepted(g, t, impls, FieldBody(table, t, k)[0]) <==> FieldFits(g, table, t, impls, k)
  {
    InnerType(g, yes, t.name, t.msg, t.msg.fields[k]);
  }

  lemma RegularFieldAccepted(g: Graph, yes: set<string>, table: Table, t: Type, impls: set<string>, k: nat)
    requires Matched(t) && k < |t.targets| && t.msg.fields[k].oneofIndex.None? && FieldOk(t.msg, t.msg.fields[k])
    requires t.targets[k] == Classify(yes, t.msg, t.msg.fields[k])
    ensures BodyAccepted(g, t, impls, FieldBody(table, t, k)) <==> FieldFits(g, table, t, impls, k)
  {
    var body := FieldBody(table, t, k);
    if body != [] {
      assert |body| == 1;
      if t.targets[k].Leaf? {
        RegularLeafAccepted(g, yes, table, t, impls, k);
      } else {
        RegularInnerAccepted(g, yes, table, t, impls, k);
      }
    }
  }

  /** What a classification says about the type of a member of a oneof. */
  lemma MemberType(g: Graph, yes: set<string>, t: string, msg: Descriptor, f: Field, o: nat)
    requires FieldOk(msg, f) && f.oneofIndex == Some(o) && !Classify(yes, msg, f).Skip?
    ensures var rust := TypeOfField(g, t, msg, f);
            && (rust.Variant? <==> !f.proto3Optional)
            && (rust.Variant? ==> rust.oneof == o && rust.boxed == Boxed(g, t, f))
            && !f.required && !f.repeated && MapValueType(msg, f).None?
            && match Classify(yes, msg, f)
               case Leaf(kind) => TerminalKind(rust.t, false) == Some(kind)
               case Inner(shape, inner) => shape == OneStruct && rust.t == inner
               case _ => false
  {
  }

  lemma ArmFits(g: Graph, yes: set<string>, table: Table, t: Type, impls: set<string>, o: nat, k: nat)
    requires Matched(t) && k < |t.targets| && IsArm(t, o, k) && FieldOk(t.msg, t.msg.fields[k])
    requires t.targets[k] == Classify(yes, t.msg, t.msg.fields[k])
    ensures ArmAccepted(g, t, impls, o, ArmFor(table, t, k)) <==> FieldFits(g, table, t, impls, k)
  {
    var f := t.msg.fields[k];
    MemberType(g, yes, t.name, t.msg, f, o);
    if t.targets[k].Leaf? && LeafCheck(table, PathAt(t, k), f.name, t.targets[k].kind).Some? {
      SingularSize(g, TypeOfField(g, t.name, t.msg, f), t.targets[k].kind, table[PathAt(t, k)].limit);
    }
  }

  /** A classified type whose generation does not panic. */
  ghost predicate Generated(yes: set<string>, t: Type) {
    && Matched(t) && WellFormed(t.msg)
    && forall k :: 0 <= k < |t.targets| ==> TargetAt(yes, t, k)
  }

  ghost predicate TargetAt(yes: set<string>, t: Type, k: nat) {
    && k < |t.targets| == |t.msg.fields|
    && t.targets[k] == Classify(yes, t.msg, t.msg.fields[k]) && !t.targets[k].Panic?
  }

  lemma AcceptedConcat(g: Graph, ty: Type, impls: set<string>, a: seq<Stmt>, b: seq<Stmt>)
    ensures BodyAccepted(g, ty, impls, a + b) <==> BodyAccepted(g, ty, impls, a) && BodyAccepted(g, ty, impls, b)
  {
    if BodyAccepted(g, ty, impls, a + b) {
      assert forall i :: 0 <= i < |a| ==> a[i] == (a + b)[i];
      assert forall i :: 0 <= i < |b| ==> b[i] == (a + b)[|a| + i];
    }
  }

  /** Those among the first `k` fields that belong to one group fit. */
  ghost predicate GroupFits(g: Graph, table: Table, t: Type, impls: set<string>, group: Option<nat>, k: nat)
    requires Matched(t) && k <= |t.targets|
    decreases k
  {
    k > 0 ==>
      && GroupFits(g, table, t, impls, group, k - 1)
      && (t.msg.fields[k - 1].oneofIndex == group ==> FieldFits(g, table, t, impls, k - 1))
  }

  lemma {:induction false} GroupMemberFits(g: Graph, table: Table, t: Type, impls: set<string>, k: nat, i: nat)
    requires Matched(t) && i < k <= |t.targets| && GroupFits(g, table, t, impls, t.msg.fields[i].oneofIndex, k)
    ensures FieldFits(g, table, t, impls, i)
    decreases k
  {
    if i < k - 1 { GroupMemberFits(g, table, t, impls, k - 1, i); }
  }

  lemma {:induction false} AllFit(g: Graph, table: Table, t: Type, impls: set<string>, group: Option<nat>, k: nat)
    requires Matched(t) && k <= |t.targets|
    requires forall i :: 0 <= i < |t.targets| ==> FieldFits(g, table, t, impls, i)
    ensures GroupFits(g, table, t, impls, group, k)
    decreases k
  {
    if k > 0 { AllFit(g, table, t, impls, group, k - 1); }
  }

  lemma {:induction false} RegularAccepted(g: Graph, yes: set<string>, table: Table, t: Type, impls: set<string>,
                                           k: nat)
    requires Generated(yes, t) && k <= |t.targets|
    ensures BodyAccepted(g, t, impls, RegularBody(table, t, k)) <==> GroupFits(g, table, t, impls, None, k)
    decreases k
  {
    if k > 0 {
      RegularAccepted(g, yes, table, t, impls, k - 1);
      if t.msg.fields[k - 1].oneofIndex.None? {
        assert TargetAt(yes, t, k - 1) && FieldOk(t.msg, t.msg.fields[k - 1]);
        AcceptedConcat(g, t, impls, RegularBody(table, t, k - 1), FieldBody(table, t, k - 1));
        RegularFieldAccepted(g, yes, table, t, impls, k - 1);
      }
    }
  }

  /** The catch-all arm is left out exactly when the arms cover the oneof. */
  lemma {:induction false} ArmsCover(table: Table, t: Type, o: nat, k: nat)
    requires Matched(t) && k <= |t.targets|
    ensures |Arms(table, t, o, k)| <= V.GroupSize(t.msg, o, k)
    ensures forall j :: 0 <= j < |Arms(table, t, o, k)| ==> Arms(table, t, o, k)[j].slot < k
    ensures |Arms(table, t, o, k)| == V.GroupSize(t.msg, o, k) <==>
            forall i :: 0 <= i < k && t.msg.fields[i].oneofIndex == Some(o) ==> HasArm(Arms(table, t, o, k), i)
    decreases k
  {
    if k > 0 {
      ArmsCover(table, t, o, k - 1);
      if IsArm(t, o, k - 1) {
        var before, arms := Arms(table, t, o, k - 1), Arms(table, t, o, k);
        assert arms[|before|].slot == k - 1;
        forall i: nat | HasArm(before, i) ensures HasArm(arms, i) {
          var j :| 0 <= j < |before| && before[j].slot == i;
          assert arms[j].slot == i;
        }
        forall i: nat | i < k - 1 && HasArm(arms, i) ensures HasArm(before, i) {
          var j :| 0 <= j < |arms| && arms[j].slot == i;
          assert before[j].slot == i;
        }
      }
    }
  }

  lemma LastArmAccepted(g: Graph, t: Type, impls: set<string>, o: nat, before: seq<Arm>, last: Arm)
    ensures ArmsAccepted(g, t, impls, o, before + [last]) <==>
            ArmsAccepted(g, t, impls, o, before) && ArmAccepted(g, t, impls, o, last)
  {
    assert (before + [last])[|before|] == last;
    assert forall i :: 0 <= i < |before| ==> before[i] == (before + [last])[i];
  }

  lemma {:induction false} ArmsFit(g: Graph, yes: set<string>, table: Table, t: Type, impls: set<string>, o: nat,
                                   k: nat)
    requires Generated(yes, t) && k <= |t.targets|
    ensures ArmsAccepted(g, t, impls, o, Arms(table, t, o, k)) <==> GroupFits(g, table, t, impls, Some(o), k)
    decreases k
  {
    if k > 0 {
      ArmsFit(g, yes, table, t, impls, o, k - 1);
      assert TargetAt(yes, t, k - 1) && FieldOk(t.msg, t.msg.fields[k - 1]);
      if IsArm(t, o, k - 1) {
        ArmFits(g, yes, table, t, impls, o, k - 1);
        LastArmAccepted(g, t, impls, o, Arms(table, t, o, k - 1), ArmFor(table, t, k - 1));
      }
    }
  }

  /** The fields of the oneofs with index below `o` fit. */
  ghost predicate OneofsFit(g: Graph, table: Table, t: Type, impls: set<string>, o: nat)
    requires Matched(t)
    decreases o
  {
    o > 0 ==> OneofsFit(g, table, t, impls, o - 1) && GroupFits(g, table, t, impls, Some(o - 1), |t.targets|)
  }

  lemma {:induction false} OneofsFitAt(g: Graph, table: Table, t: Type, impls: set<string>, o: nat, i: nat)
    requires Matched(t) && i < o && OneofsFit(g, table, t, impls, o)
    ensures GroupFits(g, table, t, impls, Some(i), |t.targets|)
    decreases o
  {
    if i < o - 1 { OneofsFitAt(g, table, t, impls, o - 1, i); }
  }

  lemma {:induction false} AllOneofsFit(g: Graph, table: Table, t: Type, impls: set<string>, o: nat)
    requires Matched(t) && forall i :: 0 <= i < |t.targets| ==> FieldFits(g, table, t, impls, i)
    ensures OneofsFit(g, table, t, impls, o)
    decreases o
  {
    if o > 0 {
      AllOneofsFit(g, table, t, impls, o - 1);
      AllFit(g, table, t, impls, Some(o - 1), |t.targets|);
    }
  }

  /** The match on one oneof compiles exactly if its members fit. */
  lemma MatchAccepted(g: Graph, yes: set<string>, table: Table, t: Type, impls: set<string>, o: nat)
    requires Generated(yes, t)
    ensures var arms := Arms(table, t, o, |t.targets|);
            Accepted(g, t, impls, MatchOneof(o, arms, V.GroupSize(t.msg, o, |t.msg.fields|)))
            <==> GroupFits(g, table, t, impls, Some(o), |t.targets|)
  {
    ArmsFit(g, yes, table, t, impls, o, |t.targets|);
    ArmsCover(table, t, o, |t.targets|);
  }

  lemma {:induction false} OneofsAccepted(g: Graph, yes: set<string>, table: Table, t: Type, impls: set<string>,
                                          o: nat)
    requires Generated(yes, t) && o <= |t.msg.oneofs|
    ensures BodyAccepted(g, t, impls, OneofBody(table, t, o)) <==> OneofsFit(g, table, t, impls, o)
    decreases o
  {
    if o > 0 {
      OneofsAccepted(g, yes, table, t, impls, o - 1);
      var arms := Arms(table, t, o - 1, |t.targets|);
      if arms == [] {
        ArmsFit(g, yes, table, t, impls, o - 1, |t.targets|);
      } else {
        var stmt := MatchOneof(o - 1, arms, V.GroupSize(t.msg, o - 1, |t.msg.fields|));
        AcceptedConcat(g, t, impls, OneofBody(table, t, o - 1), [stmt]);
        assert BodyAccepted(g, t, impls, [stmt]) <==> Accepted(g, t, impls, [stmt][0]);
        MatchAccepted(g, yes, table, t, impls, o - 1);
      }
    }
  }

  lemma FieldsFit(g: Graph, table: Table, t: Type, impls: set<string>, k: nat)
    requires Matched(t) && WellFormed(t.msg) && k < |t.targets|
    requires GroupFits(g, table, t, impls, None, |t.targets|) && OneofsFit(g, table, t, impls, |t.msg.oneofs|)
    ensures FieldFits(g, table, t, impls, k)
  {
    var group := t.msg.fields[k].oneofIndex;
    assert FieldOk(t.msg, t.msg.fields[k]);
    if group.Some? { OneofsFitAt(g, table, t, impls, |t.msg.oneofs|, group.value); }
    GroupMemberFits(g, table, t, impls, |t.targets|, k);
  }

  /** The impl of a type compiles if and only if every one of its fields fits. */
  lemma ImplAccepted(g: Graph, yes: set<string>, table: Table, t: Type, impls: set<string>)
    requires Generated(yes, t)
    ensures BodyAccepted(g, t, impls, Body(table, t)) <==>
            forall k :: 0 <= k < |t.targets| ==> FieldFits(g, table, t, impls, k)
  {
    RegularAccepted(g, yes, table, t, impls, |t.targets|);
    OneofsAccepted(g, yes, table, t, impls, |t.msg.oneofs|);
    AcceptedConcat(g, t, impls, RegularBody(table, t, |t.targets|), OneofBody(table, t, |t.msg.oneofs|));
    if BodyAccepted(g, t, impls, Body(table, t)) {
      forall k | 0 <= k < |t.targets| ensures FieldFits(g, table, t, impls, k) { FieldsFit(g, table, t, impls, k); }
    } else if forall k :: 0 <= k < |t.targets| ==> FieldFits(g, table, t, impls, k) {
      AllFit(g, table, t, impls, None, |t.targets|);
      AllOneofsFit(g, table, t, impls, |t.msg.oneofs|);
    }
  }

  // ----- the closure has the impls its bodies call -----

  /** `closure` is what `limits_closure` returns for these roots. */
  ghost predicate IsClosure(g: Graph, yes: set<string>, roots: seq<string>, closure: set<string>) {
    forall t :: t in closure <==> InClosure(g, yes, roots, t)
  }

  /** A map whose values the generator neither measures nor descends into. */
  predicate UnmeasuredMap(yes: set<string>, msg: Descriptor, f: Field) {
    && f.isMessage && MapValueType(msg, f).Some? && MapValueType(msg, f).value in yes
    && MapValueType(msg, f).value in {MEMO, HEADER, SEARCH_ATTRIBUTES, FAILURE}
  }

  lemma InnerTerminal(yes: set<string>, msg: Descriptor, f: Field)
    requires Classify(yes, msg, f).Inner?
    ensures IsTerminal(Classify(yes, msg, f).t) <==> UnmeasuredMap(yes, msg, f)
    ensures Classify(yes, msg, f).t in yes
  {
  }

  lemma InnerEnqueued(yes: set<string>, msg: Descriptor, f: Field)
    requires Classify(yes, msg, f).Inner?
    ensures Classify(yes, msg, f).t in Enqueued(yes, msg, f)
  {
  }

  lemma {:induction false} EnqueuedListed(yes: set<string>, msg: Descriptor, k: nat, n: nat, t: string)
    requires k < n <= |msg.fields| && t in Enqueued(yes, msg, msg.fields[k])
    ensures t in EnqueuedUpTo(yes, msg, n)
    decreases n
  {
    if k < n - 1 { EnqueuedListed(yes, msg, k, n - 1, t); }
  }

  /** A body of the closure descends into a type without an impl only at an unmeasured map. */
  lemma ClosureCoversInner(g: Graph, yes: set<string>, roots: seq<string>, closure: set<string>, t: string, k: nat)
    requires V.Complete(g, yes) && IsClosure(g, yes, roots, closure) && t in closure
    requires k < |g.messages[t].fields| && Classify(yes, g.messages[t], g.messages[t].fields[k]).Inner?
    ensures Classify(yes, g.messages[t], g.messages[t].fields[k]).t in closure
            <==> !UnmeasuredMap(yes, g.messages[t], g.messages[t].fields[k])
  {
    var msg := g.messages[t];
    var inner := Classify(yes, msg, msg.fields[k]).t;
    InnerTerminal(yes, msg, msg.fields[k]);
    if !IsTerminal(inner) {
      var graph := StructGraph(g, yes);
      HolderIsKnown(g, yes, inner);
      InnerEnqueued(yes, msg, msg.fields[k]);
      EnqueuedListed(yes, msg, k, |msg.fields|, inner);
      assert inner in Search.Successors(graph, t);
      var r :| r in roots && Search.Leads(graph, r, t);
      LeadsStep(graph, r, t, inner);
      assert InClosure(g, yes, roots, inner);
    }
  }

  lemma HolderIsKnown(g: Graph, yes: set<string>, t: string)
    requires V.Complete(g, yes) && t in yes && !IsTerminal(t)
    ensures t in g.messages
  {
    var types := PayloadReach.TypeGraph(g);
    assert !Search.IsBase(types, t);
    var next := Search.ReachesSuccessor(types, t);
  }

  // ----- the whole generator -----

  function ImplsOf(g: Graph, yes: set<string>, table: Table, closure: set<string>): Impls
    requires forall t :: t in closure ==> t in g.messages
  {
    map t | t in closure :: Body(table, Classified(yes, t, g.messages[t]))
  }

  /** The impl of a type compiles next to the others. */
  ghost predicate ImplCompiles(g: Graph, yes: set<string>, table: Table, closure: set<string>, t: string)
    requires t in g.messages
  {
    var ty := Classified(yes, t, g.messages[t]);
    BodyAccepted(g, ty, closure, Body(table, ty))
  }

  /** The generated file compiles. */
  ghost predicate Compiles(g: Graph, yes: set<string>, table: Table, closure: set<string>)
    requires forall t :: t in closure ==> t in g.messages
  {
    forall t :: t in closure ==> ImplCompiles(g, yes, table, closure, t)
  }

  /**
   The field forms the emitted validators can handle. Not among them are, where code is emitted for
   them at all: a map of values that are neither measured nor descended into, a proto3 `optional`, a
   proto2 `required`, a map whose keys are not strings, a boxed field of a type that is descended
   into, a repeated field checked as if it were singular, and a field measured by a map that its
   type does not have.
   */
  ghost predicate FieldSupported(g: Graph, yes: set<string>, table: Table, t: string, msg: Descriptor, f: Field) {
    match Classify(yes, msg, f)
    case Leaf(kind) => LeafFits(g, table, FieldPath(t, f.name), msg, f, kind)
    case Inner(shape, _) => !UnmeasuredMap(yes, msg, f) && InnerFits(g, t, msg, f, shape)
    case Skip => true
    case Panic => true
  }

  lemma ClassifiedIsGenerated(g: Graph, yes: set<string>, t: string)
    requires t in g.messages && WellFormed(g.messages[t]) && !Panics(yes, g.messages[t])
    ensures Generated(yes, Classified(yes, t, g.messages[t]))
  {
    var msg := g.messages[t];
    forall k | 0 <= k < |msg.fields| ensures TargetAt(yes, Classified(yes, t, msg), k) {
      if Classify(yes, msg, msg.fields[k]).Panic? { PanicsLater(yes, msg, k + 1, |msg.fields|); }
    }
  }

  lemma FitsIffSupported(g: Graph, yes: set<string>, roots: seq<string>, table: Table, closure: set<string>,
                         t: string, k: nat)
    requires V.Complete(g, yes) && IsClosure(g, yes, roots, closure) && t in closure
    requires WellFormed(g.messages[t]) && !Panics(yes, g.messages[t]) && k < |g.messages[t].fields|
    ensures FieldFits(g, table, Classified(yes, t, g.messages[t]), closure, k)
            <==> FieldSupported(g, yes, table, t, g.messages[t], g.messages[t].fields[k])
  {
    var msg := g.messages[t];
    var f := msg.fields[k];
    assert FieldOk(msg, f);
    ClassifiedIsGenerated(g, yes, t);
    assert TargetAt(yes, Classified(yes, t, msg), k);
    if Classify(yes, msg, f).Inner? {
      ClosureCoversInner(g, yes, roots, closure, t, k);
    } else {
      NotInnerNotUnmeasured(yes, msg, f);
    }
  }

  lemma NotInnerNotUnmeasured(yes: set<string>, msg: Descriptor, f: Field)
    requires !Classify(yes, msg, f).Inner?
    ensures !UnmeasuredMap(yes, msg, f)
  {
  }

  /** The generated validators compile if and only if they can handle every field of every type of the closure. */
  lemma CompilesIffSupported(g: Graph, yes: set<string>, roots: seq<string>, table: Table, closure: set<string>)
    requires AllWellFormed(g) && V.Complete(g, yes) && IsClosure(g, yes, roots, closure)
    requires forall t :: t in closure ==> !Panics(yes, g.messages[t])
    ensures Compiles(g, yes, table, closure) <==>
            forall t, k :: t in closure && 0 <= k < |g.messages[t].fields| ==>
                           FieldSupported(g, yes, table, t, g.messages[t], g.messages[t].fields[k])
  {
    forall t | t in closure
      ensures ImplCompiles(g, yes, table, closure, t) <==>
              forall k :: 0 <= k < |g.messages[t].fields| ==>
                            FieldSupported(g, yes, table, t, g.messages[t], g.messages[t].fields[k])
    {
      ClassifiedIsGenerated(g, yes, t);
      ImplAccepted(g, yes, table, Classified(yes, t, g.messages[t]), closure);
      forall k | 0 <= k < |g.messages[t].fields|
        ensures FieldFits(g, table, Classified(yes, t, g.messages[t]), closure, k)
                <==> FieldSupported(g, yes, table, t, g.messages[t], g.messages[t].fields[k])
      {
        FitsIffSupported(g, yes, roots, table, closure, t, k);
      }
    }
  }

  /**
   If the build compiles, every message of every type in the closure is validated exactly: the
   path stack is restored and the checks are those the table asks for.
   */
  lemma GeneratedValidatorIsExact(g: Graph, yes: set<string>, roots: seq<string>, table: Table, closure: set<string>,
                                  t: string, m: Message, s: Sink)
    requires AllWellFormed(g) && V.Complete(g, yes) && IsClosure(g, yes, roots, closure)
    requires forall t :: t in closure ==> !Panics(yes, g.messages[t])
    requires Compiles(g, yes, table, closure)
    requires t in closure && WellTyped(g, t, m)
    ensures Adds(s, Validate(ImplsOf(g, yes, table, closure), m, s), Expected(g, table, m, s.stack))
  {
    var types := map t | t in closure :: Classified(yes, t, g.messages[t]);
    var impls := ImplsOf(g, yes, table, closure);
    forall t | t in types ensures IsTypeOf(g, yes, t, types[t]) && !IsLeafType(t) && Fits(table, types[t], types.Keys) {
      ReadyType(g, yes, table, closure, t);
    }
    assert types.Keys == closure;
    ValidatorIsExact(g, yes, table, types, impls, t, m, s);
  }

  lemma ReadyType(g: Graph, yes: set<string>, table: Table, closure: set<string>, t: string)
    requires t in g.messages && WellFormed(g.messages[t]) && !Panics(yes, g.messages[t]) && !IsTerminal(t)
    requires ImplCompiles(g, yes, table, closure, t)
    ensures var ty := Classified(yes, t, g.messages[t]);
            IsTypeOf(g, yes, t, ty) && !IsLeafType(t) && Fits(table, ty, closure)
  {
    var ty := Classified(yes, t, g.messages[t]);
    ClassifiedIsGenerated(g, yes, t);
    ImplAccepted(g, yes, table, ty, closure);
    forall k | 0 <= k < |ty.targets|
      ensures match ty.targets[k]
              case Leaf(kind) =>
                Guarded(kind) && LeafCheck(table, PathAt(ty, k), ty.msg.fields[k].name, kind).Some? ==>
                  !ty.msg.fields[k].repeated
              case Inner(_, inner) => inner in closure
              case Skip => true
              case Panic => false
    {
      assert FieldFits(g, table, ty, closure, k) && TargetAt(yes, ty, k) && FieldOk(ty.msg, ty.msg.fields[k]);
    }
  }

  // ----- the gates over the closure -----

  /** `path` names this field of the type, and the generator looks it up. */
  ghost predicate LeafAt(g: Graph, yes: set<string>, t: string, k: nat, path: string) {
    && t in g.messages && k < |g.messages[t].fields|
    && Classify(yes, g.messages[t], g.messages[t].fields[k]).Leaf?
    && path == FieldPath(t, g.messages[t].fields[k].name)
  }

  /** `path` names a leaf field of a type of the closure. */
  ghost predicate ClosureLeaf(g: Graph, yes: set<string>, roots: seq<string>, path: string) {
    exists t, k: nat :: InClosure(g, yes, roots, t) && LeafAt(g, yes, t, k, path)
  }

  /** A key of the table stands for one field only. */
  lemma OneLeafPerKey(g: Graph, yes: set<string>, t: string, k: nat, u: string, l: nat, path: string)
    requires AllWellFormed(g) && LeafAt(g, yes, t, k, path) && LeafAt(g, yes, u, l, path)
    ensures t == u && k == l
  {
    assert FieldOk(g.messages[t], g.messages[t].fields[k]) && FieldOk(g.messages[u], g.messages[u].fields[l]);
    FieldPathInjective(t, g.messages[t].fields[k].name, u, g.messages[u].fields[l].name);
    assert k < l ==> NamesDiffer(g.messages[t], k, l);
    assert l < k ==> NamesDiffer(g.messages[t], l, k);
  }

  function TypesOf(g: Graph, yes: set<string>, names: seq<string>): (types: seq<Type>)
    requires forall t :: t in names ==> t in g.messages
    ensures |types| == |names| && forall t :: t in types ==> Matched(t)
  {
    seq(|names|, i requires 0 <= i < |names| => Classified(yes, names[i], g.messages[names[i]]))
  }

  lemma LeafOfTypes(g: Graph, yes: set<string>, roots: seq<string>, names: seq<string>, path: string)
    requires forall t :: t in names ==> t in g.messages
    requires forall t :: t in names <==> InClosure(g, yes, roots, t)
    ensures IsLeafOfAny(TypesOf(g, yes, names), path) <==> ClosureLeaf(g, yes, roots, path)
  {
    var types := TypesOf(g, yes, names);
    if IsLeafOfAny(types, path) {
      var t :| t in types && IsLeafPath(t, path);
      var i :| 0 <= i < |types| && types[i] == t;
      assert names[i] in names;
      LeafOfType(g, yes, names[i], path);
    }
    if ClosureLeaf(g, yes, roots, path) {
      var t, k: nat :| InClosure(g, yes, roots, t) && LeafAt(g, yes, t, k, path);
      var i :| 0 <= i < |names| && names[i] == t;
      assert types[i] in types;
      LeafOfType(g, yes, t, path);
    }
  }

  lemma LeafOfType(g: Graph, yes: set<string>, t: string, path: string)
    requires t in g.messages
    ensures IsLeafPath(Classified(yes, t, g.messages[t]), path) <==> exists k: nat :: LeafAt(g, yes, t, k, path)
  {
    var ty := Classified(yes, t, g.messages[t]);
    if IsLeafPath(ty, path) {
      var k :| 0 <= k < |ty.targets| && ty.targets[k].Leaf? && path == PathAt(ty, k);
      assert LeafAt(g, yes, t, k, path);
    }
    if k: nat :| LeafAt(g, yes, t, k, path) {
      assert ty.targets[k].Leaf? && path == PathAt(ty, k);
    }
  }

  /** What the generator may end with: a panic, an error of one of the gates, or the impls. */
  datatype Build = Panicked | Refused | Emitted(impls: Impls)

  /** The impls are those of the closure, and the table has exactly the keys it should have. */
  ghost predicate Builds(g: Graph, yes: set<string>, table: Table, roots: seq<string>, impls: Impls) {
    && (forall t :: t in impls <==> InClosure(g, yes, roots, t))
    && (forall t :: t in impls ==>
          !Panics(yes, g.messages[t]) && impls[t] == Body(table, Classified(yes, t, g.messages[t])))
    && (forall p :: p in table <==> ClosureLeaf(g, yes, roots, p))
  }

  /** The members of a set, each of them once. */
  method Listed(names: set<string>) returns (list: seq<string>)
    ensures forall t :: t in list <==> t in names
    ensures |list| == |names|
  {
    var rest := names;
    list := [];
    while rest != {}
      invariant rest <= names && forall t :: t in list <==> t in names && t !in rest
      invariant |list| + |rest| == |names|
      decreases |rest|
    {
      var t :| t in rest;
      rest := rest - {t};
      list := list + [t];
    }
  }

  /** The impls of the named types, and whether the table passes the gates for them. */
  method GenerateImpls(g: Graph, yes: set<string>, table: Table, names: seq<string>)
    returns (impls: Impls, accepted: bool)
    requires AllWellFormed(g) && forall t :: t in names ==> t in g.messages
    ensures forall t :: t in impls <==> t in names
    ensures forall t :: t in impls ==> impls[t] == Body(table, Classified(yes, t, g.messages[t]))
    ensures accepted <==> forall p :: p in table <==> IsLeafOfAny(TypesOf(g, yes, names), p)
  {
    var types := TypesOf(g, yes, names);
    AllTypesWellFormed(g, yes, names);
    var bodies;
    bodies, accepted := GenerateAll(table, types);
    impls := map i | 0 <= i < |names| :: names[i] := bodies[i];
  }

  /**
   `generate_payload_limits_validator`: close, generate, check the gates. It refuses the table unless
   its keys are exactly the leaf paths of the closure.
   */
  method GenerateValidators(g: Graph, yes: set<string>, table: Table, roots: seq<string>) returns (build: Build)
    requires AllWellFormed(g)
    ensures build.Panicked? <==> exists t :: InClosure(g, yes, roots, t) && Panics(yes, g.messages[t])
    ensures build.Refused? ==> !forall p :: p in table <==> ClosureLeaf(g, yes, roots, p)
    ensures build.Emitted? ==> Builds(g, yes, table, roots, build.impls)
  {
    var closure := LimitsClosure(g, yes, roots);
    if closure.None? { return Panicked; }
    var names := Listed(closure.value);
    var impls, accepted := GenerateImpls(g, yes, table, names);
    forall p ensures IsLeafOfAny(TypesOf(g, yes, names), p) <==> ClosureLeaf(g, yes, roots, p) {
      LeafOfTypes(g, yes, roots, names, p);
    }
    build := if accepted then Emitted(impls) else Refused;
  }

  lemma AllTypesWellFormed(g: Graph, yes: set<string>, names: seq<string>)
    requires AllWellFormed(g) && forall t :: t in names ==> t in g.messages
    ensures forall t :: t in TypesOf(g, yes, names) ==> Matched(t) && WellFormed(t.msg)
  {
    var types := TypesOf(g, yes, names);
    forall t | t in types ensures Matched(t) && WellFormed(t.msg) {
      var i :| 0 <= i < |types| && types[i] == t;
      assert names[i] in names;
    }
  }

  /**
   Descriptors in, checks out: search, close, generate, pass the gates, compile, run. Every leaf
   field of every type that gets an impl has a policy, and every message of such a type issues
   exactly the checks these policies ask for.
   */
  lemma ChecksFromDescriptors(g: Graph, names: seq<string>, roots: seq<string>, table: Table, impls: Impls,
                              t: string, m: Message, s: Sink)
    requires AllWellFormed(g) && V.HasBases(g)
    requires Search.NoTrap(PayloadReach.TypeGraph(g)) && Search.IsOrder(PayloadReach.TypeGraph(g), names)
    requires Builds(g, V.Marked(g, names), table, roots, impls)
    requires Compiles(g, V.Marked(g, names), table, impls.Keys)
    requires t in impls && WellTyped(g, t, m)
    ensures Adds(s, Validate(impls, m, s), Expected(g, table, m, s.stack))
    ensures forall u, k: nat, p :: u in impls && LeafAt(g, V.Marked(g, names), u, k, p) ==> p in table
  {
    V.SearchIsComplete(g, names);
    BuiltIsExact(g, V.Marked(g, names), roots, table, impls, t, m, s);
    BuiltIsCovered(g, V.Marked(g, names), roots, table, impls);
  }

  lemma BuiltIsExact(g: Graph, yes: set<string>, roots: seq<string>, table: Table, impls: Impls,
                     t: string, m: Message, s: Sink)
    requires AllWellFormed(g) && V.Complete(g, yes) && Builds(g, yes, table, roots, impls)
    requires Compiles(g, yes, table, impls.Keys) && t in impls && WellTyped(g, t, m)
    ensures Adds(s, Validate(impls, m, s), Expected(g, table, m, s.stack))
  {
    assert IsClosure(g, yes, roots, impls.Keys);
    GeneratedValidatorIsExact(g, yes, roots, table, impls.Keys, t, m, s);
    assert ImplsOf(g, yes, table, impls.Keys) == impls;
  }

  lemma BuiltIsCovered(g: Graph, yes: set<string>, roots: seq<string>, table: Table, impls: Impls)
    requires Builds(g, yes, table, roots, impls)
    ensures forall u, k: nat, p :: u in impls && LeafAt(g, yes, u, k, p) ==> p in table
  {
    forall u, k: nat, p | u in impls && LeafAt(g, yes, u, k, p) ensures p in table {
      assert InClosure(g, yes, roots, u);
      assert ClosureLeaf(g, yes, roots, p);
    }
  }
}
