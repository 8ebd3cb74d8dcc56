/**
 Which message types contain payloads: `PayloadModel` of crates/common/build.rs, whose
 search mutates three hash sets while it walks the descriptors.
 */
module PayloadReach {
  import opened Common
  import opened Descriptors
  import opened Search = GraphSearch

  /** The graph the search walks: a type leads to the targets of its message fields. */
  function TypeGraph(g: Descriptors.Graph): Search.Graph<string> {
    Search.Graph(map n | n in g.messages :: Targets(g.messages[n]), Bases(g))
  }

  /** A message of this type can hold a payload, directly or at any depth. */
  ghost predicate HoldsPayload(g: Descriptors.Graph, name: string) {
    Reaches(TypeGraph(g), name)
  }

  /** The payload types hold payloads, and `Any` does where it is counted as one. */
  lemma PayloadsHold(g: Descriptors.Graph)
    ensures HoldsPayload(g, PAYLOAD) && HoldsPayload(g, PAYLOADS) && (g.anyIsPayload ==> HoldsPayload(g, ANY))
  {
    ReachesBase(TypeGraph(g), PAYLOAD);
    ReachesBase(TypeGraph(g), PAYLOADS);
    if g.anyIsPayload { ReachesBase(TypeGraph(g), ANY); }
  }

  /** Any other type does exactly if one of its message fields leads to a type that does. */
  lemma HoldsIff(g: Descriptors.Graph, t: string)
    requires t !in {PAYLOAD, PAYLOADS} && (t == ANY ==> !g.anyIsPayload)
    ensures HoldsPayload(g, t) <==>
            t in g.messages && exists k :: 0 <= k < |g.messages[t].fields| && LeadsToPayload(g, g.messages[t], k)
  {
    if HoldsPayload(g, t) {
      var next := ReachesSuccessor(TypeGraph(g), t);
      var k := TargetsFromSound(g.messages[t], 0, next);
      assert LeadsToPayload(g, g.messages[t], k);
    }
    if t in g.messages {
      var msg := g.messages[t];
      if k :| 0 <= k < |msg.fields| && LeadsToPayload(g, msg, k) {
        TargetsFromComplete(msg, 0, k);
        ReachesStep(TypeGraph(g), t, FieldTarget(msg, msg.fields[k]));
      }
    }
  }

  ghost predicate LeadsToPayload(g: Descriptors.Graph, msg: Descriptor, k: nat) {
    k < |msg.fields| && msg.fields[k].isMessage && HoldsPayload(g, FieldTarget(msg, msg.fields[k]))
  }

  /** A message with a map of payloads holds payloads; the map is found by the name of its entry type. */
  lemma MapOfPayloadsHolds(g: Descriptors.Graph, t: string, k: nat, entry: NestedType, value: Field)
    requires t in g.messages && k < |g.messages[t].fields| && g.messages[t].fields[k].isMessage
    requires NamesUnique(g.messages[t]) && EntryPart(g.messages[t], g.messages[t].fields[k], entry, value, "value")
    requires TrimDots(value.typeName) == PAYLOAD
    ensures HoldsPayload(g, t)
  {
    var msg := g.messages[t];
    MapValueIs(msg, msg.fields[k]);
    TargetsFromComplete(msg, 0, k);
    ReachesBase(TypeGraph(g), PAYLOAD);
    if IsBase(TypeGraph(g), t) { ReachesBase(TypeGraph(g), t); } else { ReachesStep(TypeGraph(g), t, PAYLOAD); }
  }

  class PayloadModel {
    const messages: map<string, Descriptor>
    const anyIsPayload: bool
    var payloadContaining: set<string>
    var checking: set<string>
    var notPayloadContaining: set<string>

    ghost function View(): Marks<string>
      reads this
    {
      Marks(payloadContaining, notPayloadContaining, checking)
    }

    ghost function Types(): Search.Graph<string> {
      TypeGraph(Descriptors.Graph(messages, anyIsPayload))
    }

    constructor (messages: map<string, Descriptor>, anyIsPayload: bool)
      ensures this.messages == messages && this.anyIsPayload == anyIsPayload
      ensures View() == Nothing()
    {
      this.messages := messages;
      this.anyIsPayload := anyIsPayload;
      payloadContaining, checking, notPayloadContaining := {}, {}, {};
    }

    method IsPayloadType(name: string) returns (b: bool)
      ensures b <==> IsBase(Types(), name)
    {
      b := name == PAYLOAD || name == PAYLOADS || (anyIsPayload && name == ANY);
    }

    method CheckContainsPayload(name: string) returns (found: bool)
      modifies this
      ensures (View(), found) == Check(Types(), old(View()), name)
      decreases |messages.Keys - checking|, 1, 0
    {
      if name in payloadContaining { return true; }
      if name in notPayloadContaining { return false; }
      if name in checking { return false; }
      var base := IsPayloadType(name);
      if base {
        payloadContaining := payloadContaining + {name};
        return true;
      }
      if name !in messages { return false; }
      assert Types().edges.Keys == messages.Keys && Types().edges[name] == Targets(messages[name]);
      CheckingGrows(Types(), View(), name);
      checking := checking + {name};
      found := AnyFieldContainsPayload(messages[name]);
      checking := checking - {name};
      if found {
        payloadContaining := payloadContaining + {name};
      } else {
        notPayloadContaining := notPayloadContaining + {name};
      }
    }

    /** The loop over the fields inside `check_contains_payload`. */
    method AnyFieldContainsPayload(msg: Descriptor) returns (found: bool)
      modifies this
      ensures (View(), found) == CheckAll(Types(), old(View()), Targets(msg))
      decreases |messages.Keys - checking|, 3, 0
    {
      ghost var types, start := Types(), View();
      var i := 0;
      while i < |msg.fields|
        invariant 0 <= i <= |msg.fields|
        invariant checking == start.checking
        invariant CheckAll(types, start, Targets(msg)) == CheckAll(types, View(), TargetsFrom(msg, i))
      {
        CheckAllCons(types, View(), FieldTarget(msg, msg.fields[i]), TargetsFrom(msg, i + 1));
        found := FieldContainsPayload(msg, msg.fields[i]);
        if found { return; }
        i := i + 1;
      }
      return false;
    }

    method FieldContainsPayload(msg: Descriptor, field: Field) returns (found: bool)
      modifies this
      ensures !field.isMessage ==> !found && View() == old(View())
      ensures field.isMessage ==> (View(), found) == Check(Types(), old(View()), FieldTarget(msg, field))
      decreases |messages.Keys - checking|, 2, 0
    {
      if !field.isMessage { return false; }
      found := CheckContainsPayload(FieldTarget(msg, field));
    }

    /**
     The second half of `build`: search from every name, in the order `names` that the hash
     map yields. Whatever that order, only types that can hold a payload are marked; without
     a trap in the type graph exactly those messages are.
     */
    method CheckEvery(names: seq<string>)
      requires View() == Nothing() && IsOrder(Types(), names)
      modifies this
      ensures View() == CheckEach(Types(), Nothing(), names)
      ensures Sound(Types(), View())
      ensures NoTrap(Types()) ==> Exact(Types(), payloadContaining)
    {
      var i := 0;
      while i < |names|
        invariant 0 <= i <= |names|
        invariant CheckEach(Types(), Nothing(), names) == CheckEach(Types(), View(), names[i..])
      {
        assert names[i..][0] == names[i] && names[i..][1..] == names[i + 1..];
        var _ := CheckContainsPayload(names[i]);
        i := i + 1;
      }
      MarkedTypesReach(Types(), names);
      ExactIffNoTrap(Types());
    }
  }
}
