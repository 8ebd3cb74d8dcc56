/** Message values as trees, and sums over the fields of a message grouped by oneof. */
module MessageTree {
  import opened Common
  import opened Descriptors

  /**
   A value of a message type. Payloads carry an identity; a type outside the descriptor set is
   opaque. `values` runs parallel to the fields of the descriptor.
   */
  datatype Message =
    | PayloadMsg(id: int)
    | PayloadsMsg(ids: seq<int>)
    | Struct(typeName: string, values: seq<Value>)
    | Opaque(typeName: string)

  /** A key that is a number or a truth value stands here as its text. */
  datatype Entry = Entry(key: string, value: Message)

  /** A field's content; the content of a scalar field is of no interest and is `Absent`. */
  datatype Value =
    | Absent
    | One(m: Message)
    | Many(ms: seq<Message>)
    | Entries(es: seq<Entry>)

  predicate IsLeafType(t: string) { t == PAYLOAD || t == PAYLOADS }

  ghost predicate WellTyped(g: Graph, t: string, m: Message)
    decreases m, 1
  {
    match m
    case PayloadMsg(_) => t == PAYLOAD
    case PayloadsMsg(_) => t == PAYLOADS
    case Opaque(name) => t == name && t !in g.messages && !IsLeafType(t)
    case Struct(name, values) =>
      && t == name && t in g.messages && !IsLeafType(t)
      && |values| == |g.messages[t].fields|
      && (forall k :: 0 <= k < |values| ==> ValueOk(g, g.messages[t], g.messages[t].fields[k], values[k]))
      && OneofsExclusive(g.messages[t], values)
  }

  ghost predicate ValueOk(g: Graph, msg: Descriptor, f: Field, v: Value)
    decreases v, 0
  {
    if !f.isMessage then v == Absent
    else if MapValueType(msg, f).Some? then
      v.Entries? && forall e :: e in v.es ==> WellTyped(g, FieldTarget(msg, f), e.value)
    else if f.repeated then
      v.Many? && forall m :: m in v.ms ==> WellTyped(g, FieldTarget(msg, f), m)
    else
      (v == Absent && !f.required) || (v.One? && WellTyped(g, FieldTarget(msg, f), v.m))
  }

  /** At most one member of a oneof is set. */
  ghost predicate OneofsExclusive(msg: Descriptor, values: seq<Value>)
    requires |values| == |msg.fields|
  {
    forall i, j :: 0 <= i < j < |values| ==> PairExclusive(msg, values, i, j)
  }

  ghost predicate PairExclusive(msg: Descriptor, values: seq<Value>, i: nat, j: nat) {
    && i < |msg.fields| == |values| && j < |values|
    && (msg.fields[i].oneofIndex.Some? && msg.fields[i].oneofIndex == msg.fields[j].oneofIndex ==>
          values[i] == Absent || values[j] == Absent)
  }

  // ----- sums over fields -----

  /** The contributions of those among the first `k` fields that belong to one group. */
  function SumOf<T>(fields: seq<Field>, cs: seq<multiset<T>>, group: Option<nat>, k: nat): multiset<T>
    requires k <= |fields| == |cs|
  {
    if k == 0 then multiset{}
    else if fields[k - 1].oneofIndex == group then SumOf(fields, cs, group, k - 1) + cs[k - 1]
    else SumOf(fields, cs, group, k - 1)
  }

  /** The same over the oneofs with index below `o`. */
  function SumGroups<T>(fields: seq<Field>, cs: seq<multiset<T>>, o: nat, k: nat): multiset<T>
    requires k <= |fields| == |cs|
  {
    if o == 0 then multiset{} else SumGroups(fields, cs, o - 1, k) + SumOf(fields, cs, Some(o - 1), k)
  }

  function SumAll<T>(cs: seq<multiset<T>>, k: nat): multiset<T>
    requires k <= |cs|
  {
    if k == 0 then multiset{} else SumAll(cs, k - 1) + cs[k - 1]
  }

  lemma Interchange<T>(a: multiset<T>, b: multiset<T>, c: multiset<T>, d: multiset<T>)
    ensures (a + b) + (c + d) == (a + c) + (b + d)
  {
  }

  lemma {:induction false} SumGroupsStep<T>(fields: seq<Field>, cs: seq<multiset<T>>, o: nat, k: nat)
    requires 0 < k <= |fields| == |cs|
    ensures SumGroups(fields, cs, o, k) ==
            SumGroups(fields, cs, o, k - 1)
            + if fields[k - 1].oneofIndex.Some? && fields[k - 1].oneofIndex.value < o then cs[k - 1] else multiset{}
    decreases o
  {
    if o > 0 {
      SumGroupsStep(fields, cs, o - 1, k);
      var i := fields[k - 1].oneofIndex;
      var below := if i.Some? && i.value < o - 1 then cs[k - 1] else multiset{};
      var here := if i == Some(o - 1) then cs[k - 1] else multiset{};
      Interchange(SumGroups(fields, cs, o - 1, k - 1), below, SumOf(fields, cs, Some(o - 1), k - 1), here);
    }
  }

  lemma {:induction false} NoFieldsNoGroups<T>(fields: seq<Field>, cs: seq<multiset<T>>, o: nat)
    requires |fields| == |cs|
    ensures SumGroups(fields, cs, o, 0) == multiset{}
    decreases o
  {
    if o > 0 { NoFieldsNoGroups(fields, cs, o - 1); }
  }

  /** Regular fields first and then oneof by oneof covers every field exactly once. */
  lemma {:induction false} GroupsPartition<T>(fields: seq<Field>, cs: seq<multiset<T>>, n: nat, k: nat)
    requires k <= |fields| == |cs|
    requires forall i :: 0 <= i < |fields| && fields[i].oneofIndex.Some? ==> fields[i].oneofIndex.value < n
    ensures SumAll(cs, k) == SumOf(fields, cs, None, k) + SumGroups(fields, cs, n, k)
    decreases k
  {
    if k == 0 {
      NoFieldsNoGroups(fields, cs, n);
    } else {
      GroupsPartition(fields, cs, n, k - 1);
      SumGroupsStep(fields, cs, n, k);
    }
  }

  /** Next to a set member, the earlier members of a oneof contribute nothing. */
  lemma {:induction false} OthersUnset<T>(msg: Descriptor, values: seq<Value>, cs: seq<multiset<T>>, j: nat, k: nat)
    requires |values| == |msg.fields| == |cs| && OneofsExclusive(msg, values) && k <= j < |values|
    requires msg.fields[j].oneofIndex.Some? && values[j] != Absent
    requires forall i :: 0 <= i < |values| && values[i] == Absent ==> cs[i] == multiset{}
    ensures SumOf(msg.fields, cs, msg.fields[j].oneofIndex, k) == multiset{}
    decreases k
  {
    if k > 0 {
      OthersUnset(msg, values, cs, j, k - 1);
      assert PairExclusive(msg, values, k - 1, j);
    }
  }
}
