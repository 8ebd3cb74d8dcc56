/** Small descriptor sets: one that has a map of payloads, and those that the generated code does not compile for. */
module Rejections {
  import opened Common
  import opened Descriptors
  import opened PayloadLimits
  import opened RustTypes
  import Search = GraphSearch
  import PayloadReach
  import V = PayloadVisitor
  import L = LimitsBuild

  const EMPTY := Descriptor([], [], [])

  /** An entry of a map from keys of some type to a message type. */
  function EntryType(name: string, textKeys: bool, value: string): NestedType {
    NestedType(name, true, [
      Field("key", false, textKeys, false, false, "", None, false),
      Field("value", true, false, false, false, "." + value, None, false)])
  }

  function MessageField(name: string, t: string): Field {
    Field(name, true, false, false, false, "." + t, None, false)
  }

  function RepeatedField(name: string, t: string): Field { MessageField(name, t).(repeated := true) }

  const MEMO_TYPE := Descriptor([RepeatedField("fields", "FieldsEntry")], [EntryType("FieldsEntry", true, PAYLOAD)], [])

  /** The payload types, `Any`, `Memo`, and one message type of one's own. */
  function Small(msg: Descriptor, anyIsPayload: bool): Graph {
    Graph(map[PAYLOAD := EMPTY, PAYLOADS := EMPTY, ANY := EMPTY, MEMO := MEMO_TYPE, "M" := msg], anyIsPayload)
  }

  /** All types that hold payloads, for the visitor and for the validator. */
  const ALL := {PAYLOAD, PAYLOADS, MEMO, "M"}
  const ALL_AND_ANY := ALL + {ANY}

  lemma NamesApart()
    ensures PAYLOAD != PAYLOADS && PAYLOAD != MEMO && PAYLOADS != MEMO
    ensures ANY != PAYLOAD && ANY != PAYLOADS && ANY != MEMO
    ensures "M" != PAYLOAD && "M" != PAYLOADS && "M" != MEMO && "M" != ANY && !IsTerminal("M")
  {
    assert |PAYLOAD| == 30 && |PAYLOADS| == 31 && |MEMO| == 27 && |ANY| == 19;
    assert |HEADER| > 1 && |SEARCH_ATTRIBUTES| > 1 && |FAILURE| > 1;
  }

  lemma Undotted(t: string)
    requires t != [] && t[0] != '.'
    ensures TrimDots("." + t) == t
  {
    assert ("." + t)[1..] == t;
  }

  lemma {:induction false} OneWord(s: string)
    requires '_' !in s
    ensures CamelCase(s, false) == s
    decreases |s|
  {
    if s != [] { OneWord(s[1..]); }
  }

  lemma WordEntry(c: char, rest: string)
    requires c != '_' && '_' !in rest
    ensures MapEntryName([c] + rest) == [Upper(c)] + rest + "Entry"
  {
    assert ([c] + rest)[1..] == rest;
    OneWord(rest);
  }

  lemma EntryNames()
    ensures MapEntryName("m") == "MEntry" && MapEntryName("fields") == "FieldsEntry" && MapEntryName("p") == "PEntry"
  {
    WordEntry('m', "");
    WordEntry('p', "");
    WordEntry('f', "ields");
    assert ['f'] + "ields" == "fields" && ['m'] + "" == "m" && ['p'] + "" == "p";
    assert ['F'] + "ields" + "Entry" == "FieldsEntry" && ['M'] + "" + "Entry" == "MEntry";
    assert ['P'] + "" + "Entry" == "PEntry";
  }

  lemma EntryOf(msg: Descriptor, f: Field, name: string, textKeys: bool, value: string)
    requires MapEntryName(f.name) == name && msg.nested == [EntryType(name, textKeys, value)]
    requires value != [] && value[0] != '.'
    ensures MapValueType(msg, f) == Some(value) && (HasTextKeys(msg, f) <==> textKeys)
  {
    var entry := msg.nested[0];
    assert FindEntry(msg.nested, name) == Some(entry);
    assert entry.fields[0].name != "value" && FindField(entry.fields, "key") == Some(entry.fields[0]);
    assert entry.fields[1..][0] == entry.fields[1];
    assert FindField(entry.fields, "value") == Some(entry.fields[1]);
    Undotted(value);
  }

  lemma NotAMap(msg: Descriptor, f: Field)
    requires msg.nested == []
    ensures MapValueType(msg, f) == None
  {
  }

  lemma MemoHolds(g: Graph)
    requires MEMO in g.messages && g.messages[MEMO] == MEMO_TYPE
    ensures PayloadReach.HoldsPayload(g, MEMO)
  {
    var types := PayloadReach.TypeGraph(g);
    NamesApart();
    EntryNames();
    EntryOf(MEMO_TYPE, MEMO_TYPE.fields[0], "FieldsEntry", true, PAYLOAD);
    TargetsFromComplete(MEMO_TYPE, 0, 0);
    Search.ReachesBase(types, PAYLOAD);
    Search.ReachesStep(types, MEMO, PAYLOAD);
  }

  /** If some field of the message leads to a payload, all four types hold payloads. */
  lemma SmallComplete(msg: Descriptor, anyIsPayload: bool, k: nat)
    requires k < |msg.fields| && msg.fields[k].isMessage && FieldTarget(msg, msg.fields[k]) in {PAYLOAD, PAYLOADS, MEMO}
    ensures V.Complete(Small(msg, anyIsPayload), if anyIsPayload then ALL_AND_ANY else ALL)
    ensures V.HasBases(Small(msg, anyIsPayload))
  {
    NamesApart();
    var g, all := Small(msg, anyIsPayload), if anyIsPayload then ALL_AND_ANY else ALL;
    var types := PayloadReach.TypeGraph(g);
    Search.ReachesBase(types, PAYLOAD);
    Search.ReachesBase(types, PAYLOADS);
    if anyIsPayload { Search.ReachesBase(types, ANY); }
    MemoHolds(g);
    TargetsFromComplete(msg, 0, k);
    Search.ReachesStep(types, "M", FieldTarget(msg, msg.fields[k]));
    forall n | PayloadReach.HoldsPayload(g, n) ensures n in all {
      if !Search.IsBase(types, n) { var next := Search.ReachesSuccessor(types, n); }
    }
  }

  lemma IndexedFieldsEntry()
    ensures EntryChars("indexed_fields", 14) + "Entry" == "IndexedFieldsEntry"
  {
    var name := "indexed_fields";
    assert |name| == 14;
    assert EntryChars(name, 4) == "Inde";
    assert EntryChars(name, 8) == "Indexed";
    assert EntryChars(name, 11) == "IndexedFie";
  }

  /** `message SearchAttributes { map<string, Payload> indexed_fields = 1; }` holds payloads. */
  lemma SearchAttributesHold(g: Graph)
    requires SEARCH_ATTRIBUTES in g.messages
    requires g.messages[SEARCH_ATTRIBUTES] ==
             Descriptor([RepeatedField("indexed_fields", "IndexedFieldsEntry")],
                        [EntryType("IndexedFieldsEntry", true, PAYLOAD)], [])
    ensures PayloadReach.HoldsPayload(g, SEARCH_ATTRIBUTES)
  {
    var msg := g.messages[SEARCH_ATTRIBUTES];
    var entry := msg.nested[0];
    IndexedFieldsEntry();
    Undotted(PAYLOAD);
    assert entry.fields[0].name != entry.fields[1].name;
    assert entry.fields[1] in entry.fields;
    PayloadReach.MapOfPayloadsHolds(g, SEARCH_ATTRIBUTES, 0, entry, entry.fields[1]);
  }

  // ----- the visitor -----

  lemma SmallWellFormed(msg: Descriptor)
    requires WellFormed(msg)
    ensures AllWellFormed(Small(msg, true)) && AllWellFormed(Small(msg, false))
  {
    EntryNames();
    EntryOf(MEMO_TYPE, MEMO_TYPE.fields[0], "FieldsEntry", true, PAYLOAD);
    assert FieldOk(MEMO_TYPE, MEMO_TYPE.fields[0]);
    assert WellFormed(MEMO_TYPE);
  }

  lemma VisitorRejects(f: Field, oneofs: seq<string>)
    requires f.isMessage && OwnType(f) in {PAYLOAD, PAYLOADS} && FieldOk(Descriptor([f], [], oneofs), f)
    requires !V.FieldSupported(ALL, Descriptor([f], [], oneofs), f)
    ensures var g := Small(Descriptor([f], [], oneofs), false); V.Usable(g, ALL) && !V.Compiles(g, ALL)
  {
    NamesApart();
    var msg := Descriptor([f], [], oneofs);
    NotAMap(msg, f);
    SmallComplete(msg, false, 0);
    assert WellFormed(msg);
    SmallWellFormed(msg);
    V.CompilesIffSupported(Small(msg, false), ALL);
    assert !V.Supported(ALL, msg);
  }

  /** `message M { repeated Payloads m = 1; }` */
  lemma RepeatedPayloadsRejected()
    ensures var g := Small(Descriptor([RepeatedField("m", PAYLOADS)], [], []), false);
            V.Usable(g, ALL) && !V.Compiles(g, ALL)
  {
    NamesApart();
    Undotted(PAYLOADS);
    VisitorRejects(RepeatedField("m", PAYLOADS), []);
  }

  /** `message M { optional Payload m = 1; }` in proto3. */
  lemma OptionalPayloadRejected()
    ensures var f := MessageField("m", PAYLOAD).(oneofIndex := Some(0), proto3Optional := true);
            var g := Small(Descriptor([f], [], ["_m"]), false);
            V.Usable(g, ALL) && !V.Compiles(g, ALL)
  {
    NamesApart();
    Undotted(PAYLOAD);
    var f := MessageField("m", PAYLOAD).(oneofIndex := Some(0), proto3Optional := true);
    NotAMap(Descriptor([f], [], ["_m"]), f);
    VisitorRejects(f, ["_m"]);
  }

  /** `message M { required Payload m = 1; }` in proto2. */
  lemma RequiredPayloadRejected()
    ensures var g := Small(Descriptor([MessageField("m", PAYLOAD).(required := true)], [], []), false);
            V.Usable(g, ALL) && !V.Compiles(g, ALL)
  {
    NamesApart();
    Undotted(PAYLOAD);
    VisitorRejects(MessageField("m", PAYLOAD).(required := true), []);
  }

  // ----- the validator -----

  lemma RootInClosure(g: Graph, yes: set<string>, t: string)
    requires Expands(g, yes, t)
    ensures InClosure(g, yes, [t], t)
  {
    assert Search.Chain(StructGraph(g, yes), [t]) && [t][0] == t;
    assert Search.Leads(StructGraph(g, yes), t, t);
    assert t in [t];
  }

  /** Only the message type of one's own is descended into. */
  lemma OwnClosure(msg: Descriptor)
    ensures L.IsClosure(Small(msg, true), ALL_AND_ANY, ["M"], {"M"})
  {
    NamesApart();
    var g := Small(msg, true);
    RootInClosure(g, ALL_AND_ANY, "M");
    assert IsTerminal(PAYLOAD) && IsTerminal(PAYLOADS) && IsTerminal(MEMO) && IsTerminal(ANY);
  }

  lemma RejectedFor(g: Graph, yes: set<string>, roots: seq<string>, table: Table, closure: set<string>, t: string,
                    k: nat)
    requires AllWellFormed(g) && V.Complete(g, yes) && L.IsClosure(g, yes, roots, closure)
    requires forall u :: u in closure ==> !Panics(yes, g.messages[u])
    requires t in closure && k < |g.messages[t].fields|
    requires !L.FieldSupported(g, yes, table, t, g.messages[t], g.messages[t].fields[k])
    ensures !L.Compiles(g, yes, table, closure)
  {
    L.CompilesIffSupported(g, yes, roots, table, closure);
  }

  /** The set is one that generation works on, and what it emits for `M` does not compile. */
  ghost predicate ValidatorFails(g: Graph, table: Table) {
    && AllWellFormed(g) && V.Complete(g, ALL_AND_ANY) && L.IsClosure(g, ALL_AND_ANY, ["M"], {"M"})
    && "M" in g.messages && !Panics(ALL_AND_ANY, g.messages["M"]) && !L.Compiles(g, ALL_AND_ANY, table, {"M"})
  }

  /** A field that is not supported, next to one that leads to a payload. */
  lemma ValidatorRejects(g: Graph, msg: Descriptor, table: Table, k: nat, bad: nat)
    requires g == Small(msg, true) && WellFormed(msg) && !Panics(ALL_AND_ANY, msg)
    requires k < |msg.fields| && msg.fields[k].isMessage && FieldTarget(msg, msg.fields[k]) in {PAYLOAD, PAYLOADS, MEMO}
    requires bad < |msg.fields| && !L.FieldSupported(g, ALL_AND_ANY, table, "M", msg, msg.fields[bad])
    ensures ValidatorFails(g, table)
  {
    SmallComplete(msg, true, k);
    SmallWellFormed(msg);
    OwnClosure(msg);
    assert g.messages["M"] == msg;
    RejectedFor(g, ALL_AND_ANY, ["M"], table, {"M"}, "M", bad);
  }

  /** `message M { map<string, Memo> m = 1; }` */
  lemma MapOfMemoRejected(table: Table)
    ensures var msg := Descriptor([RepeatedField("m", "MEntry")], [EntryType("MEntry", true, MEMO)], []);
            ValidatorFails(Small(msg, true), table)
  {
    var msg := Descriptor([RepeatedField("m", "MEntry")], [EntryType("MEntry", true, MEMO)], []);
    var f := msg.fields[0];
    NamesApart();
    EntryNames();
    EntryOf(msg, f, "MEntry", true, MEMO);
    MemoMap(msg, f);
    ValidatorRejects(Small(msg, true), msg, table, 0, 0);
  }

  lemma MemoMap(msg: Descriptor, f: Field)
    requires msg.fields == [f] && f.isMessage && MapValueType(msg, f) == Some(MEMO) && FieldOk(msg, f)
    ensures WellFormed(msg) && !Panics(ALL_AND_ANY, msg) && L.UnmeasuredMap(ALL_AND_ANY, msg, f)
    ensures Classify(ALL_AND_ANY, msg, f) == Inner(MapStruct, MEMO)
  {
    NamesApart();
    assert !PanicsUpTo(ALL_AND_ANY, msg, 0);
  }

  /** `message M { map<int32, M> m = 1; Payload p = 2; }` */
  lemma NumberKeysRejected(table: Table)
    ensures var msg := Descriptor([RepeatedField("m", "MEntry"), MessageField("p", PAYLOAD)],
                                  [EntryType("MEntry", false, "M")], []);
            ValidatorFails(Small(msg, true), table)
  {
    var msg := Descriptor([RepeatedField("m", "MEntry"), MessageField("p", PAYLOAD)],
                          [EntryType("MEntry", false, "M")], []);
    NamesApart();
    EntryNames();
    EntryOf(msg, msg.fields[0], "MEntry", false, "M");
    PlainPayload(msg);
    ValidatorRejects(Small(msg, true), msg, table, 1, 0);
  }

  /** `message M { M m = 1; Payload p = 2; }`, whose first field is boxed. */
  lemma BoxedFieldRejected(table: Table)
    ensures var msg := Descriptor([MessageField("m", "M"), MessageField("p", PAYLOAD)], [], []);
            ValidatorFails(Small(msg, true), table)
  {
    var msg := Descriptor([MessageField("m", "M"), MessageField("p", PAYLOAD)], [], []);
    NamesApart();
    Undotted("M");
    NotAMap(msg, msg.fields[0]);
    PlainPayload(msg);
    SelfIsBoxed(Small(msg, true), "M", msg.fields[0]);
    ValidatorRejects(Small(msg, true), msg, table, 1, 0);
  }

  lemma NoEntry(nested: seq<NestedType>, name: string)
    requires nested == [] || (|nested| == 1 && nested[0].name != name)
    ensures FindEntry(nested, name) == None
  {
    if nested != [] { assert FindEntry(nested[1..], name) == None; }
  }

  /** The payload field is not taken for a map, whatever else there is. */
  lemma PlainField(msg: Descriptor)
    requires msg.nested == [] || (|msg.nested| == 1 && msg.nested[0].name == "MEntry")
    ensures MapValueType(msg, MessageField("p", PAYLOAD)) == None && OwnType(MessageField("p", PAYLOAD)) == PAYLOAD
  {
    EntryNames();
    assert "PEntry"[0] != "MEntry"[0];
    NoEntry(msg.nested, "PEntry");
    Undotted(PAYLOAD);
  }

  /** A field that leads to `M` itself, and a payload. */
  lemma PlainPayload(msg: Descriptor)
    requires |msg.fields| == 2 && msg.fields[1] == MessageField("p", PAYLOAD) && msg.fields[0].name == "m"
    requires msg.nested == [] || (|msg.nested| == 1 && msg.nested[0].name == "MEntry")
    requires msg.fields[0].isMessage && FieldTarget(msg, msg.fields[0]) == "M" && FieldOk(msg, msg.fields[0])
    ensures WellFormed(msg) && !Panics(ALL_AND_ANY, msg) && FieldTarget(msg, msg.fields[1]) == PAYLOAD
    ensures Classify(ALL_AND_ANY, msg, msg.fields[0]).Inner? && Classify(ALL_AND_ANY, msg, msg.fields[0]).t == "M"
  {
    NamesApart();
    PlainField(msg);
    assert NamesDiffer(msg, 0, 1);
    assert !PanicsUpTo(ALL_AND_ANY, msg, 0) && !PanicsUpTo(ALL_AND_ANY, msg, 1);
  }
}
