/**
 The slice of a protobuf descriptor set that the payload generators of
 crates/common/build.rs look at, and the field-level queries they share.
 */
module Descriptors {
  import opened Common

  const PAYLOAD: string := "temporal.api.common.v1.Payload"
  const PAYLOADS: string := "temporal.api.common.v1.Payloads"
  const ANY: string := "google.protobuf.Any"

  /**
   `isMessage` and `isString` tell the kinds of field apart that matter; a field with neither is of
   another scalar type, as there are no groups. `required` is the label of proto2. `typeName` keeps
   the leading dot of the descriptor; it is "" for a scalar.
   */
  datatype Field = Field(
    name: string,
    isMessage: bool,
    isString: bool,
    repeated: bool,
    required: bool,
    typeName: string,
    oneofIndex: Option<nat>,
    proto3Optional: bool)

  /** A type declared inside a message; map fields refer to one with `mapEntry` set. */
  datatype NestedType = NestedType(name: string, mapEntry: bool, fields: seq<Field>)

  /** `oneofs` holds the names of the declared oneofs. */
  datatype Descriptor = Descriptor(fields: seq<Field>, nested: seq<NestedType>, oneofs: seq<string>)

  /** The collected messages by full name, and whether `Any` counts as payload-bearing. */
  datatype Graph = Graph(messages: map<string, Descriptor>, anyIsPayload: bool)

  function TrimDots(s: string): string {
    if s != [] && s[0] == '.' then TrimDots(s[1..]) else s
  }

  function Upper(c: char): char {
    if 'a' <= c <= 'z' then (c as int - 32) as char else c
  }

  /** `to_map_entry_name`: camel case of the field name followed by "Entry". */
  function CamelCase(s: string, capitalize: bool): string {
    if s == [] then []
    else if s[0] == '_' then CamelCase(s[1..], true)
    else if capitalize then [Upper(s[0])] + CamelCase(s[1..], false)
    else [s[0]] + CamelCase(s[1..], false)
  }

  function MapEntryName(fieldName: string): string {
    CamelCase(fieldName, true) + "Entry"
  }

  function FindEntry(nested: seq<NestedType>, name: string): Option<NestedType> {
    if nested == [] then None
    else if nested[0].mapEntry && nested[0].name == name then Some(nested[0])
    else FindEntry(nested[1..], name)
  }

  function FindField(fields: seq<Field>, name: string): Option<Field> {
    if fields == [] then None
    else if fields[0].name == name then Some(fields[0])
    else FindField(fields[1..], name)
  }

  /** The value type of a map field, `None` for a field that is not a map. */
  function MapValueType(msg: Descriptor, field: Field): Option<string> {
    match FindEntry(msg.nested, MapEntryName(field.name))
    case None => None
    case Some(entry) =>
      match FindField(entry.fields, "value")
      case None => None
      case Some(value) => Some(TrimDots(value.typeName))
  }

  /** The keys of a map field are strings. */
  predicate HasTextKeys(msg: Descriptor, field: Field) {
    match FindEntry(msg.nested, MapEntryName(field.name))
    case None => false
    case Some(entry) =>
      match FindField(entry.fields, "key")
      case None => false
      case Some(key) => key.isString
  }

  function OwnType(field: Field): string { TrimDots(field.typeName) }

  /** The type a message field leads to: a map's value type, or the field's own type. */
  function FieldTarget(msg: Descriptor, field: Field): string {
    match MapValueType(msg, field)
    case Some(t) => t
    case None => OwnType(field)
  }

  // ----- what these queries find -----

  /** Letters become capitals, and nothing else changes. */
  lemma UpperIs(i: nat, c: char)
    requires i < 26
    ensures Upper("abcdefghijklmnopqrstuvwxyz"[i]) == "ABCDEFGHIJKLMNOPQRSTUVWXYZ"[i]
    ensures c !in "abcdefghijklmnopqrstuvwxyz" ==> Upper(c) == c
  {
    var small := "abcdefghijklmnopqrstuvwxyz";
    assert small[i] as int == 97 + i && "ABCDEFGHIJKLMNOPQRSTUVWXYZ"[i] as int == 65 + i;
    if 'a' <= c <= 'z' { assert small[c as int - 97] == c; }
  }

  /** The characters of the first `k` without the underscores, capital at the start and after an underscore. */
  function EntryChars(name: string, k: nat): string
    requires k <= |name|
    decreases k
  {
    if k == 0 then []
    else if name[k - 1] == '_' then EntryChars(name, k - 1)
    else EntryChars(name, k - 1) + [if k == 1 || name[k - 2] == '_' then Upper(name[k - 1]) else name[k - 1]]
  }

  lemma {:induction false} CamelCaseFrom(name: string, i: nat)
    requires i <= |name|
    ensures EntryChars(name, i) + CamelCase(name[i..], i == 0 || name[i - 1] == '_') == EntryChars(name, |name|)
    decreases |name| - i
  {
    if i < |name| {
      CamelCaseFrom(name, i + 1);
      assert name[i..][0] == name[i] && name[i..][1..] == name[i + 1..];
    } else {
      assert name[i..] == [];
    }
  }

  lemma CamelCaseIs(name: string, start: nat)
    requires start == 0
    ensures CamelCase(name, true) == EntryChars(name, |name|)
  {
    CamelCaseFrom(name, start);
    assert name[start..] == name && EntryChars(name, start) == [];
    assert [] + CamelCase(name, true) == CamelCase(name, true);
  }

  /** The name of a map entry, as protobuf makes it from the name of the field. */
  lemma EntryNameIs(name: string)
    ensures MapEntryName(name) == EntryChars(name, |name|) + "Entry"
  {
    CamelCaseIs(name, 0);
  }

  /** `to_map_entry_name`. */
  method ToMapEntryName(fieldName: string) returns (result: string)
    ensures result == EntryChars(fieldName, |fieldName|) + "Entry" == MapEntryName(fieldName)
  {
    result := [];
    var capitalizeNext := true;
    var i := 0;
    while i < |fieldName|
      invariant 0 <= i <= |fieldName| && result == EntryChars(fieldName, i)
      invariant capitalizeNext <==> i == 0 || fieldName[i - 1] == '_'
    {
      var c := fieldName[i];
      if c == '_' {
        capitalizeNext := true;
      } else if capitalizeNext {
        result := result + [Upper(c)];
        capitalizeNext := false;
      } else {
        result := result + [c];
      }
      i := i + 1;
    }
    result := result + "Entry";
    EntryNameIs(fieldName);
  }

  lemma {:induction false} TrimDotsIs(s: string) returns (k: nat)
    ensures k <= |s| && TrimDots(s) == s[k..] && (forall i :: 0 <= i < k ==> s[i] == '.')
    ensures TrimDots(s) != [] ==> TrimDots(s)[0] != '.'
    decreases |s|
  {
    if s != [] && s[0] == '.' {
      k := TrimDotsIs(s[1..]);
      k := k + 1;
    } else {
      k := 0;
    }
  }

  lemma {:induction false} FindEntryIs(nested: seq<NestedType>, name: string)
    ensures match FindEntry(nested, name)
            case None => forall n :: n in nested && n.mapEntry ==> n.name != name
            case Some(n) => n in nested && n.mapEntry && n.name == name
    decreases |nested|
  {
    if nested != [] { FindEntryIs(nested[1..], name); }
  }

  lemma {:induction false} FindFieldIs(fields: seq<Field>, name: string)
    ensures match FindField(fields, name)
            case None => forall f :: f in fields ==> f.name != name
            case Some(f) => f in fields && f.name == name
    decreases |fields|
  {
    if fields != [] { FindFieldIs(fields[1..], name); }
  }

  /** `entry` describes the entries of the map field, and `part` is its key or its value. */
  ghost predicate EntryPart(msg: Descriptor, field: Field, entry: NestedType, part: Field, name: string) {
    && entry in msg.nested && entry.mapEntry && entry.name == EntryChars(field.name, |field.name|) + "Entry"
    && part in entry.fields && part.name == name
  }

  /** No two nested types and no two fields of an entry have the same name. */
  ghost predicate NamesUnique(msg: Descriptor) {
    && (forall a, b :: a in msg.nested && b in msg.nested && a.name == b.name ==> a == b)
    && (forall n, a, b :: n in msg.nested && a in n.fields && b in n.fields && a.name == b.name ==> a == b)
  }

  /** A field is a map exactly if there is an entry type for it, which has the types of keys and values. */
  lemma MapValueIs(msg: Descriptor, field: Field)
    requires NamesUnique(msg)
    ensures MapValueType(msg, field).None? <==> !exists entry, value :: EntryPart(msg, field, entry, value, "value")
    ensures forall entry, value :: EntryPart(msg, field, entry, value, "value") ==>
              MapValueType(msg, field) == Some(TrimDots(value.typeName))
    ensures HasTextKeys(msg, field) <==>
            exists entry, key :: EntryPart(msg, field, entry, key, "key") && key.isString
  {
    EntryNameIs(field.name);
    var name := MapEntryName(field.name);
    FindEntryIs(msg.nested, name);
    var found := FindEntry(msg.nested, name);
    if found.Some? {
      FindFieldIs(found.value.fields, "value");
      FindFieldIs(found.value.fields, "key");
      var value, key := FindField(found.value.fields, "value"), FindField(found.value.fields, "key");
      if value.Some? { assert EntryPart(msg, field, found.value, value.value, "value"); }
      if key.Some? { assert EntryPart(msg, field, found.value, key.value, "key"); }
    }
  }

  /** The targets of the message-typed fields, in declaration order. */
  function Targets(msg: Descriptor): seq<string> { TargetsFrom(msg, 0) }

  function TargetsFrom(msg: Descriptor, i: nat): seq<string>
    requires i <= |msg.fields|
    decreases |msg.fields| - i
  {
    if i == |msg.fields| then []
    else if msg.fields[i].isMessage then
      [FieldTarget(msg, msg.fields[i])] + TargetsFrom(msg, i + 1)
    else TargetsFrom(msg, i + 1)
  }

  lemma {:induction false} TargetsFromComplete(msg: Descriptor, i: nat, k: nat)
    requires i <= k < |msg.fields| && msg.fields[k].isMessage
    ensures FieldTarget(msg, msg.fields[k]) in TargetsFrom(msg, i)
    decreases k - i
  {
    if i < k { TargetsFromComplete(msg, i + 1, k); }
  }

  lemma {:induction false} TargetsFromSound(msg: Descriptor, i: nat, t: string) returns (k: nat)
    requires i <= |msg.fields| && t in TargetsFrom(msg, i)
    ensures i <= k < |msg.fields| && msg.fields[k].isMessage && FieldTarget(msg, msg.fields[k]) == t
    decreases |msg.fields| - i
  {
    if msg.fields[i].isMessage && FieldTarget(msg, msg.fields[i]) == t {
      k := i;
    } else {
      k := TargetsFromSound(msg, i + 1, t);
    }
  }

  /** The types that are payload-bearing by definition. */
  function Bases(g: Graph): set<string> {
    {PAYLOAD, PAYLOADS} + if g.anyIsPayload then {ANY} else {}
  }

  // ----- what the protobuf compiler guarantees of a descriptor set -----

  /**
   Field names are unique and contain no dot; a oneof member is neither repeated nor a map; a field
   has one label.
   */
  predicate WellFormed(msg: Descriptor) {
    && (forall i, j :: 0 <= i < j < |msg.fields| ==> NamesDiffer(msg, i, j))
    && (forall i :: 0 <= i < |msg.fields| ==> FieldOk(msg, msg.fields[i]))
  }

  predicate NamesDiffer(msg: Descriptor, i: nat, j: nat) {
    i < |msg.fields| && j < |msg.fields| && msg.fields[i].name != msg.fields[j].name
  }

  predicate FieldOk(msg: Descriptor, f: Field) {
    && '.' !in f.name
    && (f.oneofIndex.Some? ==>
          f.oneofIndex.value < |msg.oneofs| && !f.repeated && MapValueType(msg, f) == None)
    && (f.required ==> !f.repeated && f.oneofIndex.None? && MapValueType(msg, f) == None)
  }

  predicate AllWellFormed(g: Graph) {
    forall n :: n in g.messages ==> WellFormed(g.messages[n])
  }

  // ----- paths -----

  function FieldPath(typeName: string, fieldName: string): string {
    typeName + "." + fieldName
  }

  /** Everything before the last dot, as `rsplit_once('.')` finds it; "" without a dot. */
  function ParentPath(path: string): string {
    if path == [] then []
    else if path[|path| - 1] == '.' then path[..|path| - 1]
    else ParentPath(path[..|path| - 1])
  }

  lemma {:induction false} ParentOfFieldPath(typeName: string, fieldName: string)
    requires '.' !in fieldName
    ensures ParentPath(FieldPath(typeName, fieldName)) == typeName
    decreases |fieldName|
  {
    var p := FieldPath(typeName, fieldName);
    if fieldName == [] {
      assert p[..|p| - 1] == typeName;
    } else {
      var shorter := fieldName[..|fieldName| - 1];
      assert p[..|p| - 1] == FieldPath(typeName, shorter);
      ParentOfFieldPath(typeName, shorter);
    }
  }

  /** A path names one type and one field. */
  lemma FieldPathInjective(t1: string, f1: string, t2: string, f2: string)
    requires '.' !in f1 && '.' !in f2 && FieldPath(t1, f1) == FieldPath(t2, f2)
    ensures t1 == t2 && f1 == f2
  {
    ParentOfFieldPath(t1, f1);
    ParentOfFieldPath(t2, f2);
    assert FieldPath(t1, f1)[|t1| + 1..] == f1;
    assert FieldPath(t2, f2)[|t2| + 1..] == f2;
  }
}
