/**
 The depth-first search of `PayloadModel::check_contains_payload`, with its positive and
 negative caches, over an arbitrary finite graph.

 The search gives up a branch at a node that is still being checked, yet records "no" for
 everything it finished on that branch. The module proves that it never marks a node
 wrongly as reaching a base, and states exactly for which graphs it misses none, whatever
 order the nodes are searched in.
 */
module GraphSearch {
  import opened Common

  /** Nodes with their ordered successors; bases are never expanded. */
  datatype Graph<N(==)> = Graph(edges: map<N, seq<N>>, bases: set<N>)

  predicate IsBase<N(==)>(g: Graph<N>, name: N) { name in g.bases }

  function Successors<N(==)>(g: Graph<N>, name: N): seq<N> {
    if name in g.edges && !IsBase(g, name) then g.edges[name] else []
  }

  /** A chain of message fields that ends at a base type. */
  ghost predicate PayloadPath<N(!new)>(g: Graph<N>, p: seq<N>)
    decreases |p|
  {
    && p != []
    && if |p| == 1 then IsBase(g, p[0]) else p[1] in Successors(g, p[0]) && PayloadPath(g, p[1..])
  }

  /** A message of this type can hold a payload, directly or at any depth. */
  ghost predicate Reaches<N(!new)>(g: Graph<N>, name: N) {
    exists p :: PayloadPath(g, p) && p[0] == name
  }

  lemma ReachesStep<N(!new)>(g: Graph<N>, name: N, t: N)
    requires t in Successors(g, name) && Reaches(g, t)
    ensures Reaches(g, name)
  {
    var p :| PayloadPath(g, p) && p[0] == t;
    var q := [name] + p;
    assert q[1..] == p;
    assert PayloadPath(g, q) && q[0] == name;
  }

  lemma ReachesBase<N(!new)>(g: Graph<N>, name: N)
    requires IsBase(g, name)
    ensures Reaches(g, name)
  {
    assert PayloadPath(g, [name]) && [name][0] == name;
  }

  /** A reaching type that is not a base has a reaching successor, even one other than itself. */
  lemma ReachesSuccessor<N(!new)>(g: Graph<N>, name: N) returns (t: N)
    requires Reaches(g, name) && !IsBase(g, name)
    ensures t in Successors(g, name) && Reaches(g, t) && t != name
  {
    var p :| PayloadPath(g, p) && p[0] == name;
    t := LeavingSuccessor(g, p);
  }

  lemma {:induction false} LeavingSuccessor<N(!new)>(g: Graph<N>, p: seq<N>) returns (t: N)
    requires PayloadPath(g, p) && !IsBase(g, p[0])
    ensures t in Successors(g, p[0]) && Reaches(g, t) && t != p[0]
    decreases |p|
  {
    if p[1] == p[0] {
      t := LeavingSuccessor(g, p[1..]);
    } else {
      t := p[1];
      assert PayloadPath(g, p[1..]) && p[1..][0] == t;
    }
  }

  /** The three sets the search updates. */
  datatype Marks<N(==)> = Marks(yes: set<N>, no: set<N>, checking: set<N>)

  /** One call of the search: the updated sets and the answer. */
  function Check<N(!new)>(g: Graph<N>, s: Marks<N>, name: N): (r: (Marks<N>, bool))
    ensures r.0.checking == s.checking
    decreases |g.edges.Keys - s.checking|, 0, 0
  {
    if name in s.yes then (s, true)
    else if name in s.no then (s, false)
    else if name in s.checking then (s, false)
    else if IsBase(g, name) then (s.(yes := s.yes + {name}), true)
    else if name !in g.edges then (s, false)
    else
      var inner := s.(checking := s.checking + {name});
      CheckingGrows(g, s, name);
      var (t, found) := CheckAll(g, inner, g.edges[name]);
      var left := t.(checking := t.checking - {name});
      if found then (left.(yes := left.yes + {name}), true)
      else (left.(no := left.no + {name}), false)
  }

  /** The loop over the fields of one message: stop at the first that contains payloads. */
  function CheckAll<N(!new)>(g: Graph<N>, s: Marks<N>, targets: seq<N>): (r: (Marks<N>, bool))
    ensures r.0.checking == s.checking
    decreases |g.edges.Keys - s.checking|, 1, |targets|
  {
    if targets == [] then (s, false)
    else
      var (t, found) := Check(g, s, targets[0]);
      if found then (t, true) else CheckAll(g, t, targets[1..])
  }

  lemma CheckAllCons<N(!new)>(g: Graph<N>, s: Marks<N>, t: N, rest: seq<N>)
    ensures CheckAll(g, s, [t] + rest) ==
            var r := Check(g, s, t); if r.1 then r else CheckAll(g, r.0, rest)
  {
    assert ([t] + rest)[1..] == rest;
  }

  lemma CheckingGrows<N(!new)>(g: Graph<N>, s: Marks<N>, name: N)
    requires name in g.edges && name !in s.checking
    ensures |g.edges.Keys - (s.checking + {name})| < |g.edges.Keys - s.checking|
  {
    assert g.edges.Keys - (s.checking + {name}) == (g.edges.Keys - s.checking) - {name};
  }

  function Nothing<N(==)>(): Marks<N> { Marks({}, {}, {}) }

  /** `PayloadModel::build`: the search from every name, in the order the map yields them. */
  function CheckEach<N(!new)>(g: Graph<N>, s: Marks<N>, names: seq<N>): Marks<N>
    decreases |names|
  {
    if names == [] then s else CheckEach(g, Check(g, s, names[0]).0, names[1..])
  }

  ghost predicate IsOrder<N(!new)>(g: Graph<N>, names: seq<N>) {
    multiset(names) == multiset(g.edges.Keys)
  }

  // ----- soundness -----

  /** Both caches only tell the truth about "yes". */
  ghost predicate Sound<N(!new)>(g: Graph<N>, s: Marks<N>) {
    forall n :: n in s.yes ==> Reaches(g, n) && (n in g.edges || IsBase(g, n))
  }

  lemma {:induction false} CheckSound<N(!new)>(g: Graph<N>, s: Marks<N>, name: N)
    requires Sound(g, s)
    ensures Sound(g, Check(g, s, name).0)
    ensures Check(g, s, name).1 ==> Reaches(g, name)
    decreases |g.edges.Keys - s.checking|, 0, 0
  {
    if name in s.yes || name in s.no || name in s.checking {
    } else if IsBase(g, name) {
      ReachesBase(g, name);
    } else if name in g.edges {
      CheckingGrows(g, s, name);
      var inner := s.(checking := s.checking + {name});
      CheckAllSound(g, inner, name, g.edges[name]);
    }
  }

  lemma {:induction false} CheckAllSound<N(!new)>(g: Graph<N>, s: Marks<N>, name: N, targets: seq<N>)
    requires Sound(g, s)
    requires forall t :: t in targets ==> t in Successors(g, name)
    ensures Sound(g, CheckAll(g, s, targets).0)
    ensures CheckAll(g, s, targets).1 ==> Reaches(g, name)
    decreases |g.edges.Keys - s.checking|, 1, |targets|
  {
    if targets != [] {
      CheckSound(g, s, targets[0]);
      if Check(g, s, targets[0]).1 {
        ReachesStep(g, name, targets[0]);
      } else {
        CheckAllSound(g, Check(g, s, targets[0]).0, name, targets[1..]);
      }
    }
  }

  lemma {:induction false} CheckEachSound<N(!new)>(g: Graph<N>, s: Marks<N>, names: seq<N>)
    requires Sound(g, s)
    ensures Sound(g, CheckEach(g, s, names))
    decreases |names|
  {
    if names != [] {
      CheckSound(g, s, names[0]);
      CheckEachSound(g, Check(g, s, names[0]).0, names[1..]);
    }
  }

  // ----- how the caches evolve -----

  /** The caches are disjoint; a call only adds to them, and never a type still being checked. */
  ghost predicate Extends<N(!new)>(s: Marks<N>, t: Marks<N>) {
    && s.yes <= t.yes && s.no <= t.no && t.checking == s.checking
    && (t.yes - s.yes) * s.checking == {}
    && (t.no - s.no) * s.checking == {}
    && (s.yes !! s.no ==> t.yes !! t.no)
  }

  lemma {:induction false} CheckExtends<N(!new)>(g: Graph<N>, s: Marks<N>, name: N)
    ensures Extends(s, Check(g, s, name).0)
    ensures Check(g, s, name).1 ==> name in Check(g, s, name).0.yes
    decreases |g.edges.Keys - s.checking|, 0, 0
  {
    if name !in s.yes && name !in s.no && name !in s.checking && !IsBase(g, name) && name in g.edges {
      CheckingGrows(g, s, name);
      var inner := s.(checking := s.checking + {name});
      CheckAllExtends(g, inner, g.edges[name]);
      var t := CheckAll(g, inner, g.edges[name]).0;
      assert name in inner.checking && name !in t.yes && name !in t.no;
    }
  }

  lemma {:induction false} CheckAllExtends<N(!new)>(g: Graph<N>, s: Marks<N>, targets: seq<N>)
    ensures Extends(s, CheckAll(g, s, targets).0)
    decreases |g.edges.Keys - s.checking|, 1, |targets|
  {
    if targets != [] {
      CheckExtends(g, s, targets[0]);
      var t := Check(g, s, targets[0]).0;
      CheckAllExtends(g, t, targets[1..]);
    }
  }

  lemma {:induction false} CheckEachExtends<N(!new)>(g: Graph<N>, s: Marks<N>, names: seq<N>)
    ensures Extends(s, CheckEach(g, s, names))
    decreases |names|
  {
    if names != [] {
      CheckExtends(g, s, names[0]);
      CheckEachExtends(g, Check(g, s, names[0]).0, names[1..]);
    }
  }

  // ----- the leftmost walk -----

  /** The first payload-reaching target that is not on the current branch. */
  ghost function FirstLive<N(!new)>(g: Graph<N>, branch: seq<N>, targets: seq<N>): Option<N> {
    if targets == [] then None
    else if Reaches(g, targets[0]) && targets[0] !in branch then Some(targets[0])
    else FirstLive(g, branch, targets[1..])
  }

  /**
   The branch the search follows from `w[0]`: every type is the first live successor of the
   one before. Declarations decide it alone; no cache is involved.
   */
  ghost predicate Walk<N(!new)>(g: Graph<N>, w: seq<N>)
    decreases |w|
  {
    if |w| <= 1 then w != [] && Reaches(g, w[0])
    else
      var u := w[..|w| - 1];
      Walk(g, u) && FirstLive(g, u, Successors(g, u[|u| - 1])) == Some(w[|w| - 1])
  }

  /** The walk ends at a payload-reaching type whose live successors are all behind it. */
  ghost predicate Trapped<N(!new)>(g: Graph<N>, w: seq<N>) {
    && Walk(g, w)
    && !IsBase(g, w[|w| - 1])
    && FirstLive(g, w, Successors(g, w[|w| - 1])) == None
  }

  ghost predicate NoTrap<N(!new)>(g: Graph<N>) {
    forall w :: !Trapped(g, w)
  }

  ghost predicate OnBranch<N(!new)>(s: Marks<N>, w: seq<N>) {
    s.checking == set n | n in w
  }

  lemma {:induction false} FirstLiveIsLive<N(!new)>(g: Graph<N>, branch: seq<N>, targets: seq<N>)
    ensures match FirstLive(g, branch, targets)
            case Some(t) => t in targets && Reaches(g, t) && t !in branch
            case None => forall t :: t in targets && Reaches(g, t) ==> t in branch
    decreases |targets|
  {
    if targets != [] && !(Reaches(g, targets[0]) && targets[0] !in branch) {
      FirstLiveIsLive(g, branch, targets[1..]);
    }
  }

  lemma WalkReaches<N(!new)>(g: Graph<N>, w: seq<N>)
    requires Walk(g, w)
    ensures Reaches(g, w[|w| - 1])
    ensures w[|w| - 1] !in w[..|w| - 1]
  {
    if |w| > 1 {
      FirstLiveIsLive(g, w[..|w| - 1], Successors(g, w[|w| - 2]));
    }
  }

  lemma {:induction false} WalkPrefix<N(!new)>(g: Graph<N>, w: seq<N>, i: nat)
    requires Walk(g, w) && 0 < i <= |w|
    ensures Walk(g, w[..i])
    decreases |w|
  {
    if i < |w| {
      assert w[..|w| - 1][..i] == w[..i];
      WalkPrefix(g, w[..|w| - 1], i);
    } else {
      assert w[..i] == w;
    }
  }

  lemma WalkNext<N(!new)>(g: Graph<N>, w: seq<N>, i: nat)
    requires Walk(g, w) && 0 < i < |w|
    ensures FirstLive(g, w[..i], Successors(g, w[i - 1])) == Some(w[i])
  {
    WalkPrefix(g, w, i + 1);
    assert w[..i + 1][..i] == w[..i];
  }

  // ----- a type that reaches no payload -----

  /** Searching below a type without payloads answers "no" and only records types without payloads. */
  lemma {:induction false} CheckDead<N(!new)>(g: Graph<N>, s: Marks<N>, name: N)
    requires Sound(g, s) && !Reaches(g, name)
    ensures var r := Check(g, s, name);
            !r.1 && r.0.yes == s.yes && forall n :: n in r.0.no - s.no ==> !Reaches(g, n)
    decreases |g.edges.Keys - s.checking|, 0, 0
  {
    if IsBase(g, name) { ReachesBase(g, name); }
    if name !in s.no && name !in s.checking && name in g.edges {
      CheckingGrows(g, s, name);
      forall t | t in Successors(g, name) ensures !Reaches(g, t) {
        if Reaches(g, t) { ReachesStep(g, name, t); }
      }
      CheckAllDead(g, s.(checking := s.checking + {name}), g.edges[name]);
    }
  }

  lemma {:induction false} CheckAllDead<N(!new)>(g: Graph<N>, s: Marks<N>, targets: seq<N>)
    requires Sound(g, s) && forall t :: t in targets ==> !Reaches(g, t)
    ensures var r := CheckAll(g, s, targets);
            !r.1 && r.0.yes == s.yes && forall n :: n in r.0.no - s.no ==> !Reaches(g, n)
    decreases |g.edges.Keys - s.checking|, 1, |targets|
  {
    if targets != [] {
      CheckDead(g, s, targets[0]);
      CheckAllDead(g, Check(g, s, targets[0]).0, targets[1..]);
    }
  }

  // ----- without traps the search is complete -----

  /** Both caches tell the truth. */
  ghost predicate Truthful<N(!new)>(g: Graph<N>, s: Marks<N>) {
    Sound(g, s) && forall n :: n in s.no ==> !Reaches(g, n)
  }

  lemma {:induction false} CheckLive<N(!new)>(g: Graph<N>, s: Marks<N>, w: seq<N>)
    requires NoTrap(g) && Truthful(g, s) && Walk(g, w) && OnBranch(s, w[..|w| - 1])
    ensures var r := Check(g, s, w[|w| - 1]); r.1 && Truthful(g, r.0)
    decreases |g.edges.Keys - s.checking|, 0, 0
  {
    var name := w[|w| - 1];
    WalkReaches(g, w);
    if IsBase(g, name) {
      ReachesBase(g, name);
    } else if name !in s.yes {
      var live := ReachesSuccessor(g, name);
      CheckingGrows(g, s, name);
      var inner := s.(checking := s.checking + {name});
      assert OnBranch(inner, w) by { assert w == w[..|w| - 1] + [name]; }
      assert !Trapped(g, w);
      CheckAllLive(g, inner, w, Successors(g, name));
    }
  }

  lemma {:induction false} CheckAllLive<N(!new)>(g: Graph<N>, s: Marks<N>, w: seq<N>, targets: seq<N>)
    requires NoTrap(g) && Truthful(g, s) && Walk(g, w) && OnBranch(s, w)
    requires FirstLive(g, w, Successors(g, w[|w| - 1])).Some?
    requires FirstLive(g, w, targets) == FirstLive(g, w, Successors(g, w[|w| - 1]))
    ensures var r := CheckAll(g, s, targets); r.1 && Truthful(g, r.0)
    decreases |g.edges.Keys - s.checking|, 1, |targets|
  {
    var t := targets[0];
    if !Reaches(g, t) {
      CheckDead(g, s, t);
      CheckAllLive(g, Check(g, s, t).0, w, targets[1..]);
    } else if t in w {
      if t !in s.yes { CheckAllLive(g, s, w, targets[1..]); }
    } else {
      assert (w + [t])[..|w|] == w;
      CheckLive(g, s, w + [t]);
    }
  }

  lemma {:induction false} CheckEachComplete<N(!new)>(g: Graph<N>, s: Marks<N>, names: seq<N>)
    requires NoTrap(g) && Truthful(g, s) && s.checking == {}
    ensures forall n :: n in names && Reaches(g, n) ==> n in CheckEach(g, s, names).yes
    decreases |names|
  {
    if names != [] {
      var n := names[0];
      if Reaches(g, n) {
        assert Walk(g, [n]);
        assert [n][..0] == [];
        CheckLive(g, s, [n]);
      } else {
        CheckDead(g, s, n);
      }
      CheckExtends(g, s, n);
      var t := Check(g, s, n).0;
      CheckEachComplete(g, t, names[1..]);
      CheckEachExtends(g, t, names[1..]);
    }
  }

  // ----- a trap makes some order miss a type -----

  /** Nothing is marked "yes" yet and "no" is right so far: the search is still descending. */
  ghost predicate Descending<N(!new)>(g: Graph<N>, s: Marks<N>) {
    s.yes == {} && forall n :: n in s.no ==> !Reaches(g, n)
  }

  /** What the walk `w` does after its first `i` nodes. */
  ghost predicate Continues<N(!new)>(g: Graph<N>, w: seq<N>, i: nat, targets: seq<N>)
    requires i <= |w|
  {
    FirstLive(g, w[..i], targets) == if i == |w| then None else Some(w[i])
  }

  lemma TrapContinues<N(!new)>(g: Graph<N>, w: seq<N>, i: nat)
    requires Trapped(g, w) && 0 < i <= |w|
    ensures Reaches(g, w[i - 1]) && !IsBase(g, w[i - 1]) && w[i - 1] in g.edges && w[i - 1] !in w[..i - 1]
    ensures Continues(g, w, i, Successors(g, w[i - 1]))
  {
    WalkPrefix(g, w, i);
    assert w[..i][..i - 1] == w[..i - 1];
    WalkReaches(g, w[..i]);
    if i < |w| { WalkNext(g, w, i); } else { assert w[..i] == w; }
    var live := ReachesSuccessor(g, w[i - 1]);
  }

  /** Opening a type: what its fields record is recorded, and the type itself if they hold nothing. */
  lemma CheckOpens<N(!new)>(g: Graph<N>, s: Marks<N>, name: N)
    requires name !in s.yes && name !in s.no && name !in s.checking && !IsBase(g, name) && name in g.edges
    ensures var r := CheckAll(g, s.(checking := s.checking + {name}), Successors(g, name));
            r.0.no <= Check(g, s, name).0.no && (!r.1 ==> name in Check(g, s, name).0.no)
  {
  }

  lemma {:induction false} CheckFallsIn<N(!new)>(g: Graph<N>, s: Marks<N>, w: seq<N>, i: nat)
    requires Trapped(g, w) && 0 < i <= |w|
    requires Descending(g, s) && OnBranch(s, w[..i - 1])
    ensures w[|w| - 1] in Check(g, s, w[i - 1]).0.no
    decreases |g.edges.Keys - s.checking|, 0, 0
  {
    var name := w[i - 1];
    TrapContinues(g, w, i);
    CheckingGrows(g, s, name);
    var inner := s.(checking := s.checking + {name});
    assert OnBranch(inner, w[..i]) by { assert w[..i] == w[..i - 1] + [name]; }
    CheckAllFallsIn(g, inner, w, i, Successors(g, name));
    CheckOpens(g, s, name);
  }

  lemma {:induction false} CheckAllFallsIn<N(!new)>(g: Graph<N>, s: Marks<N>, w: seq<N>, i: nat, targets: seq<N>)
    requires Trapped(g, w) && 0 < i <= |w|
    requires Descending(g, s) && OnBranch(s, w[..i]) && Continues(g, w, i, targets)
    ensures if i < |w| then w[|w| - 1] in CheckAll(g, s, targets).0.no else !CheckAll(g, s, targets).1
    decreases |g.edges.Keys - s.checking|, 1, |targets|
  {
    if targets != [] {
      var t := targets[0];
      if !Reaches(g, t) {
        CheckDead(g, s, t);
        CheckAllFallsIn(g, Check(g, s, t).0, w, i, targets[1..]);
      } else if t in w[..i] {
        assert Check(g, s, t) == (s, false);
        CheckAllFallsIn(g, s, w, i, targets[1..]);
      } else {
        CheckFallsIn(g, s, w, i + 1);
        CheckAllExtends(g, Check(g, s, t).0, targets[1..]);
      }
    }
  }

  lemma TrapBreaksAnOrder<N(!new)>(g: Graph<N>, w: seq<N>) returns (names: seq<N>)
    requires Trapped(g, w)
    ensures IsOrder(g, names)
    ensures w[|w| - 1] in g.edges && Reaches(g, w[|w| - 1])
    ensures w[|w| - 1] !in CheckEach(g, Nothing(), names).yes
  {
    var first, last := w[0], w[|w| - 1];
    TrapContinues(g, w, |w|);
    TrapContinues(g, w, 1);
    var rest := Enumerate(g.edges.Keys - {first});
    names := [first] + rest;
    assert multiset(g.edges.Keys) == multiset{first} + multiset(g.edges.Keys - {first});
    assert w[..0] == [];
    CheckFallsIn(g, Nothing(), w, 1);
    CheckExtends(g, Nothing(), first);
    var s := Check(g, Nothing(), first).0;
    assert names[1..] == rest;
    CheckEachExtends(g, s, rest);
  }

  // ----- the main results -----

  /**
   Whatever the order, every marked type can hold a payload and is a known message or a base.
   */
  lemma MarkedTypesReach<N(!new)>(g: Graph<N>, names: seq<N>)
    ensures Sound(g, CheckEach(g, Nothing(), names))
  {
    CheckEachSound(g, Nothing(), names);
  }

  /** The marked messages are exactly the payload-reaching ones. */
  ghost predicate Exact<N(!new)>(g: Graph<N>, yes: set<N>) {
    forall n :: n in g.edges ==> (n in yes <==> Reaches(g, n))
  }

  /**
   The search is exact for every order of the names if and only if no leftmost walk is trapped.
   */
  lemma ExactIffNoTrap<N(!new)>(g: Graph<N>)
    ensures (forall names :: IsOrder(g, names) ==> Exact(g, CheckEach(g, Nothing(), names).yes)) <==> NoTrap(g)
  {
    if NoTrap(g) {
      forall names | IsOrder(g, names) ensures Exact(g, CheckEach(g, Nothing(), names).yes) {
        MarkedTypesReach(g, names);
        CheckEachComplete(g, Nothing(), names);
        forall n | n in g.edges ensures n in names {
          assert n in multiset(g.edges.Keys);
          assert n in multiset(names);
        }
      }
    } else {
      var w :| Trapped(g, w);
      var names := TrapBreaksAnOrder(g, w);
      assert IsOrder(g, names) && !Exact(g, CheckEach(g, Nothing(), names).yes);
    }
  }

  // ----- graphs without shared cycles -----

  ghost predicate Chain<N(!new)>(g: Graph<N>, p: seq<N>)
    decreases |p|
  {
    p != [] && (|p| > 1 ==> p[1] in Successors(g, p[0]) && Chain(g, p[1..]))
  }

  ghost predicate Leads<N(!new)>(g: Graph<N>, u: N, v: N) {
    exists p :: Chain(g, p) && p[0] == u && p[|p| - 1] == v
  }

  /** Two different nodes that reach a base lie on a common cycle. */
  ghost predicate SharedCycle<N(!new)>(g: Graph<N>, u: N, v: N) {
    u != v && Reaches(g, u) && Reaches(g, v) && Leads(g, u, v) && Leads(g, v, u)
  }

  lemma {:induction false} ChainAppend<N(!new)>(g: Graph<N>, p: seq<N>, t: N)
    requires Chain(g, p) && t in Successors(g, p[|p| - 1])
    ensures Chain(g, p + [t])
    decreases |p|
  {
    assert (p + [t])[1..] == p[1..] + [t];
    if |p| > 1 { ChainAppend(g, p[1..], t); }
  }

  /** A set closed under known successors keeps every chain that starts in it. */
  lemma {:induction false} ChainStaysInside<N(!new)>(g: Graph<N>, kept: set<N>, p: seq<N>)
    requires forall s, t :: s in kept && t in Successors(g, s) ==> t in kept || t !in g.edges
    requires Chain(g, p) && p[0] in kept && p[|p| - 1] in g.edges
    ensures p[|p| - 1] in kept
    decreases |p|
  {
    if |p| > 1 {
      var q := p[1..];
      assert q[0] in Successors(g, p[0]);
      assert |q| > 1 ==> q[1] in Successors(g, q[0]);
      ChainStaysInside(g, kept, q);
    }
  }

  lemma {:induction false} WalkChain<N(!new)>(g: Graph<N>, w: seq<N>, i: nat)
    requires Walk(g, w) && i < |w|
    ensures Chain(g, w[i..])
    decreases |w|
  {
    var u := w[..|w| - 1];
    if i < |u| {
      WalkChain(g, u, i);
      FirstLiveIsLive(g, u, Successors(g, u[|u| - 1]));
      ChainAppend(g, u[i..], w[|u|]);
      assert w[i..] == u[i..] + [w[|u|]];
    }
  }

  /**
   Self-loops are harmless: a trap needs two different nodes that reach a base on one cycle.
   */
  lemma TrapSharesCycle<N(!new)>(g: Graph<N>, w: seq<N>) returns (u: N, v: N)
    requires Trapped(g, w)
    ensures SharedCycle(g, u, v)
  {
    v := w[|w| - 1];
    WalkReaches(g, w);
    u := ReachesSuccessor(g, v);
    FirstLiveIsLive(g, w, Successors(g, v));
    var i :| 0 <= i < |w| && w[i] == u;
    WalkChain(g, w, i);
    assert w[i..][0] == u && w[i..][|w[i..]| - 1] == v;
    assert Leads(g, u, v);
    assert Chain(g, [v, u]) by { assert [v, u][1..] == [u]; }
    assert [v, u][0] == v && [v, u][|[v, u]| - 1] == u;
    assert Leads(g, v, u);
  }

  lemma NoSharedCycleNoTrap<N(!new)>(g: Graph<N>)
    requires forall u, v :: !SharedCycle(g, u, v)
    ensures NoTrap(g)
  {
    forall w ensures !Trapped(g, w) {
      if Trapped(g, w) {
        var u, v := TrapSharesCycle(g, w);
      }
    }
  }

  /**
   The smallest miss: `a` lists `b` before the base, and `b` leads only back to `a`. Searching
   `a` first records "no" for `b` although `b` reaches the base; searching `b` first does not.
   */
  lemma TwoNodeMiss<N(!new)>(a: N, b: N, base: N)
    requires a != b && a != base && b != base
    ensures var g := Graph(map[a := [b, base], b := [a]], {base});
            && Reaches(g, b)
            && b !in CheckEach(g, Nothing(), [a, b]).yes
            && b in CheckEach(g, Nothing(), [b, a]).yes
  {
    var g := Graph(map[a := [b, base], b := [a]], {base});
    ReachesBase(g, base);
    ReachesStep(g, a, base);
    ReachesStep(g, b, a);
    var w := [a, b];
    assert FirstLive(g, [a], Successors(g, a)) == Some(b);
    assert w[..1] == [a];
    assert Walk(g, w);
    assert Trapped(g, w);
    assert [a][..0] == [];
    CheckFallsIn(g, Nothing(), w, 1);
    var s := Check(g, Nothing(), a).0;
    CheckExtends(g, Nothing(), a);
    assert [a, b][1..] == [b];
    CheckEachExtends(g, s, [b]);
    BackNodeFirst(g, a, b, base);
  }

  lemma BackNodeFirst<N(!new)>(g: Graph<N>, a: N, b: N, base: N)
    requires a != b && a != base && b != base && g == Graph(map[a := [b, base], b := [a]], {base})
    ensures b in CheckEach(g, Nothing(), [b, a]).yes
  {
    var s0 := Nothing<N>();
    var s1 := s0.(checking := {b});
    var s2 := s1.(checking := {b} + {a});
    assert Check(g, s2, b) == (s2, false);
    assert [b, base][1..] == [base] && [base][0] == base;
    assert Check(g, s2, base).1 && CheckAll(g, s2, [base]).1;
    assert CheckAll(g, s2, [b, base]).1;
    assert s0.checking + {b} == {b};
    assert Check(g, s1, a).1;
    assert CheckAll(g, s1, [a]).1;
    assert Check(g, s0, b).1;
    CheckExtends(g, s0, b);
    assert [b, a][1..] == [a];
    CheckEachExtends(g, Check(g, s0, b).0, [a]);
  }
}
