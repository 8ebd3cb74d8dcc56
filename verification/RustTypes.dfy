/**
 The types that prost gives to message fields. The code that crates/common/build.rs generates
 compiles only if its expressions fit them.
 */
module RustTypes {
  import opened Common
  import opened Descriptors
  import Search = GraphSearch

  /** The own types of the message fields that are not repeated, among the first `k`. */
  function SingularTargets(msg: Descriptor, k: nat): seq<string>
    requires k <= |msg.fields|
  {
    if k == 0 then []
    else
      var f := msg.fields[k - 1];
      SingularTargets(msg, k - 1) + if f.isMessage && !f.repeated then [OwnType(f)] else []
  }

  /** A type leads to what it would hold by value. */
  function SingularGraph(g: Graph): Search.Graph<string> {
    Search.Graph(map n | n in g.messages :: SingularTargets(g.messages[n], |g.messages[n].fields|), {})
  }

  /** A field by which a value of type `t` would contain another one is boxed. */
  ghost predicate Boxed(g: Graph, t: string, f: Field) {
    f.isMessage && !f.repeated && Search.Leads(SingularGraph(g), OwnType(f), t)
  }

  datatype RustType =
    | OptionOf(t: string, boxed: bool)
    | Bare(t: string, boxed: bool)
    | VecOf(t: string)
    | MapOf(t: string, textKeys: bool)
    | Variant(oneof: nat, t: string, boxed: bool)

  /** The type of a message field of type `t`; a proto3 `optional` is no enum variant. */
  ghost function TypeOfField(g: Graph, t: string, msg: Descriptor, f: Field): RustType {
    match MapValueType(msg, f)
    case Some(value) => MapOf(value, HasTextKeys(msg, f))
    case None =>
      if f.oneofIndex.Some? && !f.proto3Optional then Variant(f.oneofIndex.value, OwnType(f), Boxed(g, t, f))
      else if f.repeated then VecOf(OwnType(f))
      else if f.required then Bare(OwnType(f), Boxed(g, t, f))
      else OptionOf(OwnType(f), Boxed(g, t, f))
  }

  // ----- what is boxed -----

  predicate IsSingular(msg: Descriptor, i: nat, t: string) {
    i < |msg.fields| && msg.fields[i].isMessage && !msg.fields[i].repeated && OwnType(msg.fields[i]) == t
  }

  /** A value of type `a` would hold one of type `b`, if nothing were boxed. */
  ghost predicate HoldsByValue(g: Graph, a: string, b: string) {
    a in g.messages && exists i :: 0 <= i < |g.messages[a].fields| && IsSingular(g.messages[a], i, b)
  }

  ghost predicate Nested(g: Graph, p: seq<string>) {
    p != [] && forall i :: 0 < i < |p| ==> HoldsByValue(g, p[i - 1], p[i])
  }

  lemma {:induction false} SingularIff(msg: Descriptor, k: nat, t: string)
    requires k <= |msg.fields|
    ensures t in SingularTargets(msg, k) <==> exists i :: 0 <= i < k && IsSingular(msg, i, t)
    decreases k
  {
    if k > 0 {
      SingularIff(msg, k - 1, t);
      assert IsSingular(msg, k - 1, t) <==> msg.fields[k - 1].isMessage && !msg.fields[k - 1].repeated
                                            && OwnType(msg.fields[k - 1]) == t;
    }
  }

  lemma {:induction false} ChainIff(g: Graph, p: seq<string>)
    ensures Search.Chain(SingularGraph(g), p) <==> Nested(g, p)
    decreases |p|
  {
    if |p| > 1 {
      ChainIff(g, p[1..]);
      if p[0] in g.messages { SingularIff(g.messages[p[0]], |g.messages[p[0]].fields|, p[1]); }
      assert p[1] in Search.Successors(SingularGraph(g), p[0]) <==> HoldsByValue(g, p[0], p[1]);
      NestedCons(g, p);
    }
  }

  lemma NestedCons(g: Graph, p: seq<string>)
    requires |p| > 1
    ensures Nested(g, p) <==> HoldsByValue(g, p[0], p[1]) && Nested(g, p[1..])
  {
    var rest := p[1..];
    if Nested(g, p) {
      forall i | 0 < i < |rest| ensures HoldsByValue(g, rest[i - 1], rest[i]) {
        assert HoldsByValue(g, p[i + 1 - 1], p[i + 1]);
      }
    }
    if HoldsByValue(g, p[0], p[1]) && Nested(g, rest) {
      forall i | 0 < i < |p| ensures HoldsByValue(g, p[i - 1], p[i]) {
        if i > 1 { assert HoldsByValue(g, rest[i - 1 - 1], rest[i - 1]); }
      }
    }
  }

  /** A field is boxed exactly if it is one by which a value would end up inside another value of its own type. */
  lemma BoxedIff(g: Graph, t: string, f: Field)
    ensures Boxed(g, t, f) <==>
            && f.isMessage && !f.repeated
            && exists p :: Nested(g, p) && p[0] == OwnType(f) && p[|p| - 1] == t
  {
    if Boxed(g, t, f) {
      var p :| Search.Chain(SingularGraph(g), p) && p[0] == OwnType(f) && p[|p| - 1] == t;
      ChainIff(g, p);
    }
    if p :| Nested(g, p) && p[0] == OwnType(f) && p[|p| - 1] == t {
      ChainIff(g, p);
    }
  }

  /** A field of the type's own type is boxed. */
  lemma SelfIsBoxed(g: Graph, t: string, f: Field)
    requires f.isMessage && !f.repeated && OwnType(f) == t
    ensures Boxed(g, t, f)
  {
    assert Search.Chain(SingularGraph(g), [t]) && [t][0] == t;
  }
}
