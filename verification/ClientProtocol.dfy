/**
 The replaceable client as a concurrent protocol: any number of threads replace the shared client,
 refresh or read cached clones of it and make new clones, in any interleaving of their atomic steps
 (crates/client/src/replaceable.rs).
 */
module ClientProtocol {
  import opened Common

  /** The generation counter wraps around. */
  const GENERATIONS := 0x1_0000_0000

  /** What a call that reads the client was made for. */
  datatype Call =
    | Cow(instance: nat)
    | Refresh(instance: nat)
    | Copy(instance: nat)

  /**
   Where a thread is. `since` is the length of the history when its call began, `seen` its length
   when the generation was loaded.
   */
  datatype Op<C> =
    | Idle
    | ReplaceWaits(client: C, since: nat)
    | ReplaceLocked(client: C, since: nat)
    | ReplaceStored(client: C, since: nat)
    | ReplaceBumped(client: C, since: nat, seen: nat)
    | Checks(call: Call, since: nat)
    | Unchanged(call: Call, since: nat, seen: nat)
    | FetchWaits(call: Call, since: nat)
    | FetchLocked(call: Call, since: nat)
    | FetchCloned(call: Call, since: nat, client: C)
    | FetchLoaded(call: Call, since: nat, client: C, generation: nat, seen: nat)
    | Fetched(call: Call, since: nat, client: C, generation: nat, seen: nat)

  /** A cached clone, the length of the history when it was fetched, and whether it was left alone since. */
  datatype Cache<C> = Cache(client: C, generation: nat, seen: nat, pristine: bool)

  /** A client handed out by a call during which the history grew from `since` to `until`. */
  datatype Returned<C> = Returned(client: C, since: nat, seen: nat, until: nat, cached: Option<Cache<C>>)

  /** `history` holds every client that was ever current; a client becomes so when the generation is bumped. */
  datatype State<C> = State(
    client: C, generation: nat, history: seq<C>, threads: seq<Op<C>>, instances: seq<Cache<C>>, log: seq<Returned<C>>)

  datatype Step<C> =
    | StartReplace(t: nat, client: C)
    | LockWrite(t: nat)
    | Store(t: nat)
    | Bump(t: nat)
    | UnlockWrite(t: nat)
    | Start(t: nat, call: Call)
    | Check(t: nat)
    | LockRead(t: nat)
    | CloneClient(t: nat)
    | LoadGeneration(t: nat)
    | UnlockRead(t: nat)
    | Return(t: nat)
    | Mutate(instance: nat, client: C)

  // ----- locks and borrows -----

  predicate Writes<C>(op: Op<C>) { op.ReplaceLocked? || op.ReplaceStored? || op.ReplaceBumped? }

  predicate Reads<C>(op: Op<C>) { op.FetchLocked? || op.FetchCloned? || op.FetchLoaded? }

  predicate IsCall<C>(op: Op<C>) {
    || op.Checks? || op.Unchanged?
    || op.FetchWaits? || op.FetchLocked? || op.FetchCloned? || op.FetchLoaded? || op.Fetched?
  }

  predicate Uses<C>(op: Op<C>, i: nat) { IsCall(op) && op.call.instance == i }

  /** A refresh borrows its instance mutably. */
  predicate Owns<C>(op: Op<C>, i: nat) { Uses(op, i) && op.call.Refresh? }

  // ----- steps -----

  function With<C>(s: State<C>, t: nat, op: Op<C>): State<C>
    requires t < |s.threads|
  {
    s.(threads := s.threads[t := op])
  }

  ghost predicate Enabled<C(!new)>(s: State<C>, step: Step<C>) {
    match step
    case Mutate(i, _) => i < |s.instances| && forall u :: 0 <= u < |s.threads| ==> !Uses(s.threads[u], i)
    case StartReplace(t, _) => t < |s.threads| && s.threads[t].Idle?
    case LockWrite(t) =>
      t < |s.threads| && s.threads[t].ReplaceWaits? &&
      forall u :: 0 <= u < |s.threads| ==> !Writes(s.threads[u]) && !Reads(s.threads[u])
    case Store(t) => t < |s.threads| && s.threads[t].ReplaceLocked?
    case Bump(t) => t < |s.threads| && s.threads[t].ReplaceStored?
    case UnlockWrite(t) => t < |s.threads| && s.threads[t].ReplaceBumped?
    case Start(t, call) =>
      t < |s.threads| && s.threads[t].Idle? && call.instance < |s.instances| &&
      forall u :: 0 <= u < |s.threads| ==>
        !Owns(s.threads[u], call.instance) && (call.Refresh? ==> !Uses(s.threads[u], call.instance))
    case Check(t) => t < |s.threads| && s.threads[t].Checks? && s.threads[t].call.instance < |s.instances|
    case LockRead(t) =>
      t < |s.threads| && s.threads[t].FetchWaits? && forall u :: 0 <= u < |s.threads| ==> !Writes(s.threads[u])
    case CloneClient(t) => t < |s.threads| && s.threads[t].FetchLocked?
    case LoadGeneration(t) => t < |s.threads| && s.threads[t].FetchCloned?
    case UnlockRead(t) => t < |s.threads| && s.threads[t].FetchLoaded?
    case Return(t) =>
      t < |s.threads| && (s.threads[t].Unchanged? || s.threads[t].Fetched?) &&
      s.threads[t].call.instance < |s.instances|
  }

  /** A fetched client goes to the cache of a refresh, to a new instance of a clone, or only to the caller. */
  function Deliver<C>(instances: seq<Cache<C>>, call: Call, fetched: Cache<C>): seq<Cache<C>>
    requires call.instance < |instances|
  {
    match call
    case Cow(_) => instances
    case Refresh(i) => instances[i := fetched]
    case Copy(_) => instances + [fetched]
  }

  ghost function Apply<C(!new)>(s: State<C>, step: Step<C>): State<C>
    requires Enabled(s, step)
  {
    match step
    case Mutate(i, c) => s.(instances := s.instances[i := s.instances[i].(client := c, pristine := false)])
    case StartReplace(t, c) => With(s, t, ReplaceWaits(c, |s.history|))
    case LockWrite(t) => With(s, t, ReplaceLocked(s.threads[t].client, s.threads[t].since))
    case Store(t) =>
      With(s, t, ReplaceStored(s.threads[t].client, s.threads[t].since)).(client := s.threads[t].client)
    case Bump(t) =>
      With(s, t, ReplaceBumped(s.threads[t].client, s.threads[t].since, |s.history| + 1))
        .(generation := (s.generation + 1) % GENERATIONS, history := s.history + [s.client])
    case UnlockWrite(t) => With(s, t, Idle)
    case Start(t, call) =>
      With(s, t, if call.Copy? then FetchWaits(call, |s.history|) else Checks(call, |s.history|))
    case Check(t) =>
      var op := s.threads[t];
      if s.instances[op.call.instance].generation == s.generation
      then With(s, t, Unchanged(op.call, op.since, |s.history|))
      else With(s, t, FetchWaits(op.call, op.since))
    case LockRead(t) => With(s, t, FetchLocked(s.threads[t].call, s.threads[t].since))
    case CloneClient(t) => With(s, t, FetchCloned(s.threads[t].call, s.threads[t].since, s.client))
    case LoadGeneration(t) =>
      With(s, t, FetchLoaded(s.threads[t].call, s.threads[t].since, s.threads[t].client, s.generation, |s.history|))
    case UnlockRead(t) =>
      var op := s.threads[t];
      With(s, t, Fetched(op.call, op.since, op.client, op.generation, op.seen))
    case Return(t) =>
      var op := s.threads[t];
      var done := With(s, t, Idle);
      if op.Unchanged? then
        var cache := s.instances[op.call.instance];
        done.(log := s.log + [Returned(cache.client, op.since, op.seen, |s.history|, Some(cache))])
      else
        var fetched := Cache(op.client, op.generation, op.seen, true);
        done.(instances := Deliver(s.instances, op.call, fetched),
              log := s.log + [Returned(op.client, op.since, op.seen, |s.history|, None)])
  }

  // ----- what every step keeps -----

  ghost predicate GlobalOk<C>(s: State<C>) {
    s.history != [] && s.generation == (|s.history| - 1) % GENERATIONS
  }

  /** The shared client is the current one, but for the thread that is replacing it. */
  ghost predicate ClientOk<C>(s: State<C>) {
    s.history != [] &&
    ((forall t :: 0 <= t < |s.threads| ==> !s.threads[t].ReplaceStored?) ==> s.client == s.history[|s.history| - 1])
  }

  ghost predicate Current<C>(s: State<C>, client: C) { s.history != [] && client == s.history[|s.history| - 1] }

  ghost predicate CacheOk<C>(history: seq<C>, c: Cache<C>) {
    && 1 <= c.seen <= |history| && c.generation == (c.seen - 1) % GENERATIONS
    && (c.pristine ==> c.client == history[c.seen - 1])
  }

  ghost predicate SeenOk<C>(history: seq<C>, since: nat, seen: nat) { 1 <= since <= seen <= |history| }

  ghost predicate ThreadOk<C>(s: State<C>, op: Op<C>) {
    match op
    case Idle => true
    case ReplaceWaits(_, since) => 1 <= since <= |s.history|
    case ReplaceLocked(_, since) => 1 <= since <= |s.history|
    case ReplaceStored(c, since) => 1 <= since <= |s.history| && s.client == c
    case ReplaceBumped(c, since, seen) => 1 <= since < seen == |s.history| && c == s.history[seen - 1]
    case Checks(call, since) => CallOk(s, call, since)
    case Unchanged(call, since, seen) =>
      && CallOk(s, call, since) && SeenOk(s.history, since, seen)
      && s.instances[call.instance].generation == (seen - 1) % GENERATIONS
    case FetchWaits(call, since) => CallOk(s, call, since)
    case FetchLocked(call, since) => CallOk(s, call, since)
    case FetchCloned(call, since, c) => CallOk(s, call, since) && Current(s, c)
    case FetchLoaded(call, since, c, g, seen) =>
      CallOk(s, call, since) && Current(s, c) && seen == |s.history| && g == s.generation
    case Fetched(call, since, c, g, seen) =>
      && CallOk(s, call, since) && SeenOk(s.history, since, seen)
      && c == s.history[seen - 1] && g == (seen - 1) % GENERATIONS
  }

  /** The cached clone of a call's instance is no newer than the start of the call. */
  ghost predicate CallOk<C>(s: State<C>, call: Call, since: nat) {
    && 1 <= since <= |s.history| && call.instance < |s.instances|
    && s.instances[call.instance].seen <= since
  }

  /** One writer and no readers beside it; one owner of an instance and no users beside it. */
  ghost predicate Exclusive<C>(a: Op<C>, b: Op<C>) {
    && !(Writes(a) && (Writes(b) || Reads(b)))
    && !(IsCall(a) && Owns(b, a.call.instance))
  }

  /**
   A call was answered with a client that was current at some instant of the call, or with a clone
   cached before the call whose generation was the current one at some instant of the call.
   */
  ghost predicate ReturnOk<C>(history: seq<C>, r: Returned<C>) {
    && 1 <= r.since <= r.seen <= r.until <= |history|
    && (r.cached.None? ==> r.client == history[r.seen - 1])
    && (r.cached.Some? ==>
          && CacheOk(history, r.cached.value) && r.client == r.cached.value.client
          && r.cached.value.seen <= r.since && r.cached.value.generation == (r.seen - 1) % GENERATIONS)
  }

  ghost predicate Inv<C(!new)>(s: State<C>) {
    && GlobalOk(s) && ClientOk(s)
    && (forall t :: 0 <= t < |s.threads| ==> ThreadOk(s, s.threads[t]))
    && (forall t, u :: 0 <= t < |s.threads| && 0 <= u < |s.threads| && t != u ==> Exclusive(s.threads[t], s.threads[u]))
    && (forall i :: 0 <= i < |s.instances| ==> CacheOk(s.history, s.instances[i]))
    && (forall k :: 0 <= k < |s.log| ==> ReturnOk(s.history, s.log[k]))
  }

  // ----- one thread moves -----

  /** A change that a thread does not notice. */
  ghost predicate Unnoticed<C>(s: State<C>, s': State<C>, op: Op<C>) {
    && s.history <= s'.history
    && (Reads(op) || Writes(op) ==> s'.history == s.history && s'.generation == s.generation)
    && (op.ReplaceStored? ==> s'.client == s.client)
    && (IsCall(op) && op.call.instance < |s.instances| ==>
          && op.call.instance < |s'.instances|
          && s'.instances[op.call.instance].seen == s.instances[op.call.instance].seen
          && s'.instances[op.call.instance].generation == s.instances[op.call.instance].generation)
  }

  lemma ThreadKept<C>(s: State<C>, s': State<C>, op: Op<C>)
    requires ThreadOk(s, op) && Unnoticed(s, s', op)
    ensures ThreadOk(s', op)
  {
  }

  ghost predicate Apart<C>(s: State<C>, t: nat, op: Op<C>) {
    forall u :: 0 <= u < |s.threads| && u != t ==> Exclusive(op, s.threads[u]) && Exclusive(s.threads[u], op)
  }

  /** Only one thread's position changes. */
  lemma MoveKeeps<C(!new)>(s: State<C>, t: nat, op: Op<C>)
    requires Inv(s) && t < |s.threads| && ThreadOk(s, op) && Apart(s, t, op)
    requires !op.ReplaceStored? && !s.threads[t].ReplaceStored?
    ensures Inv(With(s, t, op))
  {
    var s' := With(s, t, op);
    forall u | 0 <= u < |s'.threads| ensures ThreadOk(s', s'.threads[u]) {
      if u != t { ThreadKept(s, s', s.threads[u]); } else { ThreadKept(s, s', op); }
    }
    if forall u :: 0 <= u < |s'.threads| ==> !s'.threads[u].ReplaceStored? {
      assert forall u :: 0 <= u < |s.threads| ==> !s.threads[u].ReplaceStored? by {
        forall u | 0 <= u < |s.threads| ensures !s.threads[u].ReplaceStored? {
          if u != t { assert s'.threads[u] == s.threads[u]; }
        }
      }
    }
  }

  /** A thread at the same call, with no more locks than before, is as far apart from the others. */
  lemma SameCall<C(!new)>(s: State<C>, t: nat, op: Op<C>)
    requires Inv(s) && t < |s.threads| && !Writes(op)
    requires IsCall(op) ==> IsCall(s.threads[t]) && op.call == s.threads[t].call
    requires Reads(op) ==> Reads(s.threads[t])
    ensures Apart(s, t, op)
  {
    forall u | 0 <= u < |s.threads| && u != t ensures Exclusive(op, s.threads[u]) && Exclusive(s.threads[u], op) {
      assert Exclusive(s.threads[t], s.threads[u]) && Exclusive(s.threads[u], s.threads[t]);
    }
  }

  lemma ReplaceMoves<C(!new)>(s: State<C>, step: Step<C>)
    requires Inv(s) && Enabled(s, step) && (step.StartReplace? || step.LockWrite? || step.UnlockWrite?)
    ensures Inv(Apply(s, step))
  {
    var t := step.t;
    var op := Apply(s, step).threads[t];
    assert ThreadOk(s, s.threads[t]);
    if step.LockWrite? {
      assert Apart(s, t, op);
    } else {
      SameCall(s, t, op);
    }
    MoveKeeps(s, t, op);
  }

  lemma StartKeeps<C(!new)>(s: State<C>, t: nat, call: Call)
    requires Inv(s) && Enabled(s, Start(t, call))
    ensures Inv(Apply(s, Start(t, call)))
  {
    var op := Apply(s, Start(t, call)).threads[t];
    assert CacheOk(s.history, s.instances[call.instance]);
    forall u | 0 <= u < |s.threads| && u != t ensures Exclusive(op, s.threads[u]) && Exclusive(s.threads[u], op) { }
    MoveKeeps(s, t, op);
  }

  lemma CheckKeeps<C(!new)>(s: State<C>, t: nat)
    requires Inv(s) && Enabled(s, Check(t))
    ensures Inv(Apply(s, Check(t)))
  {
    var op := Apply(s, Check(t)).threads[t];
    assert ThreadOk(s, s.threads[t]);
    SameCall(s, t, op);
    MoveKeeps(s, t, op);
  }

  lemma LockReadKeeps<C(!new)>(s: State<C>, t: nat)
    requires Inv(s) && Enabled(s, LockRead(t))
    ensures Inv(Apply(s, LockRead(t)))
  {
    var op := Apply(s, LockRead(t)).threads[t];
    assert ThreadOk(s, s.threads[t]);
    forall u | 0 <= u < |s.threads| && u != t ensures Exclusive(op, s.threads[u]) && Exclusive(s.threads[u], op) {
      assert Exclusive(s.threads[t], s.threads[u]) && Exclusive(s.threads[u], s.threads[t]);
    }
    MoveKeeps(s, t, op);
  }

  /** While a thread holds the lock for reading, the shared client is the current one. */
  lemma ReadsCurrent<C(!new)>(s: State<C>, t: nat)
    requires Inv(s) && t < |s.threads| && Reads(s.threads[t])
    ensures Current(s, s.client)
  {
    forall u | 0 <= u < |s.threads| ensures !s.threads[u].ReplaceStored? {
      if u != t { assert Exclusive(s.threads[u], s.threads[t]); }
    }
  }

  lemma FetchMoves<C(!new)>(s: State<C>, step: Step<C>)
    requires Inv(s) && Enabled(s, step) && (step.CloneClient? || step.LoadGeneration? || step.UnlockRead?)
    ensures Inv(Apply(s, step))
  {
    var t := step.t;
    var op := Apply(s, step).threads[t];
    assert ThreadOk(s, s.threads[t]);
    ReadsCurrent(s, t);
    SameCall(s, t, op);
    MoveKeeps(s, t, op);
  }

  // ----- the shared client changes -----

  /** The thread that holds the lock for writing is the only one that holds it. */
  lemma OnlyWriter<C(!new)>(s: State<C>, t: nat, u: nat)
    requires Inv(s) && t < |s.threads| && u < |s.threads| && t != u && Writes(s.threads[t])
    ensures !Writes(s.threads[u]) && !Reads(s.threads[u])
  {
    assert Exclusive(s.threads[t], s.threads[u]);
  }

  lemma StoreKeeps<C(!new)>(s: State<C>, t: nat)
    requires Inv(s) && Enabled(s, Store(t))
    ensures Inv(Apply(s, Store(t)))
  {
    var s' := Apply(s, Store(t));
    assert ThreadOk(s, s.threads[t]);
    forall u | 0 <= u < |s'.threads| ensures ThreadOk(s', s'.threads[u]) {
      if u != t {
        OnlyWriter(s, t, u);
        ThreadKept(s, s', s.threads[u]);
      }
    }
    forall u, v | 0 <= u < |s'.threads| && 0 <= v < |s'.threads| && u != v
      ensures Exclusive(s'.threads[u], s'.threads[v])
    {
      assert Exclusive(s.threads[u], s.threads[v]);
    }
    assert s'.threads[t].ReplaceStored?;
  }

  lemma ReturnsKept<C>(history: seq<C>, client: C, r: Returned<C>)
    requires ReturnOk(history, r)
    ensures ReturnOk(history + [client], r)
  {
  }

  /** The linearization point of a replacement. */
  lemma BumpKeeps<C(!new)>(s: State<C>, t: nat)
    requires Inv(s) && Enabled(s, Bump(t))
    ensures Inv(Apply(s, Bump(t)))
  {
    var s' := Apply(s, Bump(t));
    assert ThreadOk(s, s.threads[t]);
    forall u | 0 <= u < |s'.threads| ensures ThreadOk(s', s'.threads[u]) {
      if u != t {
        OnlyWriter(s, t, u);
        ThreadKept(s, s', s.threads[u]);
      }
    }
    forall u, v | 0 <= u < |s'.threads| && 0 <= v < |s'.threads| && u != v
      ensures Exclusive(s'.threads[u], s'.threads[v])
    {
      assert Exclusive(s.threads[u], s.threads[v]);
    }
    forall i | 0 <= i < |s'.instances| ensures CacheOk(s'.history, s'.instances[i]) {
      assert CacheOk(s.history, s.instances[i]);
    }
    forall k | 0 <= k < |s'.log| ensures ReturnOk(s'.history, s'.log[k]) {
      ReturnsKept(s.history, s.client, s.log[k]);
    }
    BumpedGeneration(|s.history| - 1);
  }

  lemma BumpedGeneration(n: nat)
    ensures (n % GENERATIONS + 1) % GENERATIONS == (n + 1) % GENERATIONS
  {
  }

  // ----- a call returns -----

  /** The caches that other threads use are untouched. */
  lemma OthersUntouched<C(!new)>(s: State<C>, t: nat, u: nat, fetched: Cache<C>)
    requires Inv(s) && t < |s.threads| && u < |s.threads| && t != u
    requires IsCall(s.threads[t]) && s.threads[t].call.instance < |s.instances| && IsCall(s.threads[u])
    requires s.threads[u].call.instance < |s.instances|
    ensures var after := Deliver(s.instances, s.threads[t].call, fetched);
            |after| >= |s.instances| && after[s.threads[u].call.instance] == s.instances[s.threads[u].call.instance]
  {
    assert Exclusive(s.threads[u], s.threads[t]);
  }

  lemma ReturnCached<C(!new)>(s: State<C>, t: nat)
    requires Inv(s) && Enabled(s, Return(t)) && s.threads[t].Unchanged?
    ensures Inv(Apply(s, Return(t)))
  {
    var op, s' := s.threads[t], Apply(s, Return(t));
    assert ThreadOk(s, op);
    assert CacheOk(s.history, s.instances[op.call.instance]);
    SameCall(s, t, Idle);
    MoveKeeps(s, t, Idle);
    var mid := With(s, t, Idle);
    forall u | 0 <= u < |s'.threads| ensures ThreadOk(s', s'.threads[u]) { ThreadKept(mid, s', mid.threads[u]); }
  }

  lemma OtherCalls<C(!new)>(s: State<C>, t: nat, u: nat)
    requires Inv(s) && Enabled(s, Return(t)) && s.threads[t].Fetched? && u < |s.threads| && u != t
    ensures ThreadOk(Apply(s, Return(t)), s.threads[u])
  {
    var op, s' := s.threads[t], Apply(s, Return(t));
    assert ThreadOk(s, s.threads[u]);
    if IsCall(s.threads[u]) { OthersUntouched(s, t, u, Cache(op.client, op.generation, op.seen, true)); }
    ThreadKept(s, s', s.threads[u]);
  }

  lemma ReturnFetched<C(!new)>(s: State<C>, t: nat)
    requires Inv(s) && Enabled(s, Return(t)) && s.threads[t].Fetched?
    ensures Inv(Apply(s, Return(t)))
  {
    var op, s' := s.threads[t], Apply(s, Return(t));
    assert ThreadOk(s, op);
    SameCall(s, t, Idle);
    MoveKeeps(s, t, Idle);
    var mid := With(s, t, Idle);
    assert s'.threads == mid.threads;
    forall u | 0 <= u < |s'.threads| ensures ThreadOk(s', s'.threads[u]) {
      if u != t { OtherCalls(s, t, u); }
    }
    DeliveredOk(s, op.call, Cache(op.client, op.generation, op.seen, true));
  }

  lemma DeliveredOk<C(!new)>(s: State<C>, call: Call, fetched: Cache<C>)
    requires Inv(s) && call.instance < |s.instances| && CacheOk(s.history, fetched)
    ensures forall i :: 0 <= i < |Deliver(s.instances, call, fetched)| ==>
              CacheOk(s.history, Deliver(s.instances, call, fetched)[i])
  {
  }

  lemma MutateKeeps<C(!new)>(s: State<C>, i: nat, c: C)
    requires Inv(s) && Enabled(s, Mutate(i, c))
    ensures Inv(Apply(s, Mutate(i, c)))
  {
    var s' := Apply(s, Mutate(i, c));
    forall u | 0 <= u < |s'.threads| ensures ThreadOk(s', s'.threads[u]) { ThreadKept(s, s', s.threads[u]); }
    forall k | 0 <= k < |s'.instances| ensures CacheOk(s'.history, s'.instances[k]) {
      assert CacheOk(s.history, s.instances[k]);
    }
  }

  /** Every step keeps the invariant. */
  lemma StepKeeps<C(!new)>(s: State<C>, step: Step<C>)
    requires Inv(s) && Enabled(s, step)
    ensures Inv(Apply(s, step))
  {
    match step
    case Mutate(i, c) => MutateKeeps(s, i, c);
    case StartReplace(_, _) => ReplaceMoves(s, step);
    case LockWrite(_) => ReplaceMoves(s, step);
    case Store(t) => StoreKeeps(s, t);
    case Bump(t) => BumpKeeps(s, t);
    case UnlockWrite(_) => ReplaceMoves(s, step);
    case Start(t, call) => StartKeeps(s, t, call);
    case Check(t) => CheckKeeps(s, t);
    case LockRead(t) => LockReadKeeps(s, t);
    case CloneClient(_) => FetchMoves(s, step);
    case LoadGeneration(_) => FetchMoves(s, step);
    case UnlockRead(_) => FetchMoves(s, step);
    case Return(t) => if s.threads[t].Fetched? { ReturnFetched(s, t); } else { ReturnCached(s, t); }
  }

  // ----- whole runs -----

  /** `new`: one instance, whose cache holds the initial client. */
  function Initial<C>(client: C, threads: nat): State<C> {
    State(client, 0, [client], seq(threads, _ => Idle), [Cache(client, 0, 1, true)], [])
  }

  ghost predicate StepOk<C(!new)>(states: seq<State<C>>, steps: seq<Step<C>>, k: nat) {
    && k < |steps| && k + 1 < |states|
    && Enabled(states[k], steps[k]) && states[k + 1] == Apply(states[k], steps[k])
  }

  /** Any interleaving of steps. */
  ghost predicate IsRun<C(!new)>(states: seq<State<C>>, steps: seq<Step<C>>) {
    && |states| == |steps| + 1
    && (exists c, n :: states[0] == Initial(c, n))
    && forall k :: 0 <= k < |steps| ==> StepOk(states, steps, k)
  }

  lemma InitialInv<C(!new)>(client: C, threads: nat)
    ensures Inv(Initial(client, threads))
  {
  }

  lemma {:induction false} RunInv<C(!new)>(states: seq<State<C>>, steps: seq<Step<C>>, k: nat)
    requires IsRun(states, steps) && k < |states|
    ensures Inv(states[k])
    decreases k
  {
    if k == 0 {
      var c, n :| states[0] == Initial(c, n);
      InitialInv(c, n);
    } else {
      RunInv(states, steps, k - 1);
      assert StepOk(states, steps, k - 1);
      StepKeeps(states[k - 1], steps[k - 1]);
    }
  }

  /** The answer of a call was the current client at some instant of the call. */
  ghost predicate CurrentDuring<C>(history: seq<C>, r: Returned<C>) {
    1 <= r.since <= r.until <= |history| && exists p :: r.since - 1 <= p < r.until && history[p] == r.client
  }

  /** More than that: it was current when the generation was loaded. */
  ghost predicate Linear<C>(history: seq<C>, r: Returned<C>) {
    1 <= r.since <= r.seen <= r.until <= |history| && r.client == history[r.seen - 1]
  }

  /** A call answered from a cache that was left alone and held the current client when the call began. */
  ghost predicate UpToDate<C>(r: Returned<C>) {
    r.cached.Some? ==> r.cached.value.pristine && r.cached.value.seen == r.since
  }

  /** A call answered from a cache that was left alone and is fewer than 2^32 replacements old. */
  ghost predicate Fresh<C>(r: Returned<C>) {
    r.cached.Some? ==> r.cached.value.pristine && r.seen - r.cached.value.seen < GENERATIONS
  }

  lemma SameGeneration(m: nat, n: nat)
    requires m <= n && m % GENERATIONS == n % GENERATIONS
    ensures (n - m) % GENERATIONS == 0 && (n - m < GENERATIONS ==> m == n)
  {
  }

  /**
   Linearizability: in every interleaving, each client handed out was current at some instant of its
   call, unless it came from a clone that had been modified locally or was outdated when the call
   began.
   */
  lemma Linearizable<C(!new)>(states: seq<State<C>>, steps: seq<Step<C>>, k: nat, r: Returned<C>)
    requires IsRun(states, steps) && k < |states| && r in states[k].log && UpToDate(r)
    ensures CurrentDuring(states[k].history, r)
  {
    RunInv(states, steps, k);
    var p := if r.cached.Some? then r.since - 1 else r.seen - 1;
    assert states[k].history[p] == r.client;
  }

  /** Below 2^32 replacements no outdated clone is handed out: an answer was current when the generation was loaded. */
  lemma FreshIsUpToDate<C(!new)>(states: seq<State<C>>, steps: seq<Step<C>>, k: nat, r: Returned<C>)
    requires IsRun(states, steps) && k < |states| && r in states[k].log && Fresh(r)
    ensures UpToDate(r) && Linear(states[k].history, r)
  {
    RunInv(states, steps, k);
    if r.cached.Some? { SameGeneration(r.cached.value.seen - 1, r.seen - 1); }
  }

  /** No client is installed twice. */
  ghost predicate AllDifferent<C>(history: seq<C>) {
    forall p, q :: 0 <= p < q < |history| ==> history[p] != history[q]
  }

  /**
   Where clients can be told apart, the answer from an untouched cache was current at an instant of
   the call exactly if it was when the call began.
   */
  lemma LinearIff<C(!new)>(states: seq<State<C>>, steps: seq<Step<C>>, k: nat, r: Returned<C>)
    requires IsRun(states, steps) && k < |states| && r in states[k].log && AllDifferent(states[k].history)
    requires r.cached.Some? ==> r.cached.value.pristine
    ensures CurrentDuring(states[k].history, r) <==> UpToDate(r)
  {
    RunInv(states, steps, k);
    if UpToDate(r) {
      Linearizable(states, steps, k, r);
    } else {
      var h, n := states[k].history, r.cached.value.seen;
      assert CacheOk(h, r.cached.value);
      forall p | r.since - 1 <= p < r.until ensures h[p] != r.client { assert h[n - 1] != h[p]; }
    }
  }

  /** A replacement takes effect during its call: its client is then the latest of the history. */
  lemma ReplacementTakesEffect<C(!new)>(states: seq<State<C>>, steps: seq<Step<C>>, k: nat, t: nat)
    requires IsRun(states, steps) && k < |states| && t < |states[k].threads| && states[k].threads[t].ReplaceBumped?
    ensures var op, h := states[k].threads[t], states[k].history;
            1 <= op.since < op.seen == |h| && op.client == h[op.seen - 1]
  {
    RunInv(states, steps, k);
    assert ThreadOk(states[k], states[k].threads[t]);
  }

  /** Each fetched pair is a client of the history with its position, modulo 2^32. */
  lemma FetchedPairs<C(!new)>(states: seq<State<C>>, steps: seq<Step<C>>, k: nat, t: nat)
    requires IsRun(states, steps) && k < |states| && t < |states[k].threads| && states[k].threads[t].Fetched?
    ensures var op, h := states[k].threads[t], states[k].history;
            && 1 <= op.since <= op.seen <= |h|
            && op.client == h[op.seen - 1] && op.generation == (op.seen - 1) % GENERATIONS
  {
    RunInv(states, steps, k);
    assert ThreadOk(states[k], states[k].threads[t]);
  }

  /**
   A call takes the cached clone exactly if the number of replacements since it was fetched is a
   multiple of 2^32; an untouched clone is as many replacements behind the current client.
   */
  lemma CachedIff<C(!new)>(states: seq<State<C>>, steps: seq<Step<C>>, k: nat, t: nat)
    requires IsRun(states, steps) && k < |steps| && steps[k] == Check(t)
    ensures var s := states[k];
            && t < |s.threads| && s.threads[t].Checks? && s.threads[t].call.instance < |s.instances|
            && var cache := s.instances[s.threads[t].call.instance];
               var age := |s.history| - cache.seen;
               && 0 <= age < |s.history| && t < |states[k + 1].threads|
               && (states[k + 1].threads[t].Unchanged? <==> age % GENERATIONS == 0)
               && (cache.pristine ==> cache.client == s.history[|s.history| - 1 - age])
  {
    RunInv(states, steps, k);
    assert StepOk(states, steps, k);
    var s := states[k];
    var cache := s.instances[s.threads[t].call.instance];
    assert CacheOk(s.history, cache);
    EqualModulo(cache.seen - 1, |s.history| - 1);
  }

  lemma EqualModulo(m: nat, n: nat)
    requires m <= n
    ensures m % GENERATIONS == n % GENERATIONS <==> (n - m) % GENERATIONS == 0
  {
  }

  // ----- a run in which a stale clone is handed out -----

  /** One more step of a run. */
  lemma Extended<C(!new)>(states: seq<State<C>>, steps: seq<Step<C>>, step: Step<C>)
    returns (states': seq<State<C>>, steps': seq<Step<C>>)
    requires IsRun(states, steps) && Enabled(states[|steps|], step)
    ensures IsRun(states', steps') && |steps'| == |steps| + 1
    ensures states'[|steps'|] == Apply(states[|steps|], step)
  {
    states', steps' := states + [Apply(states[|steps|], step)], steps + [step];
    forall k | 0 <= k < |steps'| ensures StepOk(states', steps', k) {
      if k < |steps| { assert StepOk(states, steps, k); }
    }
    assert states'[0] == states[0];
  }

  function Later<C>(a: C, b: C, n: nat): seq<C>
    decreases n
  {
    if n == 0 then [a] else Later(a, b, n - 1) + [b]
  }

  lemma {:induction false} LaterIs<C>(a: C, b: C, n: nat)
    ensures |Later(a, b, n)| == n + 1 && Later(a, b, n)[n] == if n == 0 then a else b
    decreases n
  {
    if n > 0 { LaterIs(a, b, n - 1); }
  }

  /** One thread has put `b` in place of `a` and then of itself, `n` times in all, and is at `op`. */
  function Replaced<C>(a: C, b: C, n: nat, op: Op<C>): State<C> {
    State(if n == 0 then a else b, n % GENERATIONS, Later(a, b, n), [op], [Cache(a, 0, 1, true)], [])
  }

  /** A replacement is five steps. */
  lemma ReplaceOnce<C(!new)>(a: C, b: C, n: nat, states: seq<State<C>>, steps: seq<Step<C>>)
    returns (states': seq<State<C>>, steps': seq<Step<C>>)
    requires IsRun(states, steps) && states[|steps|] == Replaced(a, b, n, Idle)
    ensures IsRun(states', steps') && states'[|steps'|] == Replaced(a, b, n + 1, Idle)
  {
    LaterIs(a, b, n);
    var since := |Later(a, b, n)|;
    states', steps' := Extended(states, steps, StartReplace(0, b));
    assert states'[|steps'|] == Replaced(a, b, n, ReplaceWaits(b, since));
    states', steps' := Extended(states', steps', LockWrite(0));
    assert states'[|steps'|] == Replaced(a, b, n, ReplaceLocked(b, since));
    states', steps' := Extended(states', steps', Store(0));
    assert states'[|steps'|] == Replaced(a, b, n, ReplaceStored(b, since)).(client := b);
    states', steps' := Extended(states', steps', Bump(0));
    BumpedGeneration(n);
    assert states'[|steps'|] == Replaced(a, b, n + 1, ReplaceBumped(b, since, since + 1));
    states', steps' := Extended(states', steps', UnlockWrite(0));
  }

  lemma {:induction false} ReplaceMany<C(!new)>(a: C, b: C, n: nat)
    returns (states: seq<State<C>>, steps: seq<Step<C>>)
    ensures IsRun(states, steps) && states[|steps|] == Replaced(a, b, n, Idle)
    decreases n
  {
    if n == 0 {
      states, steps := [Initial(a, 1)], [];
      assert Initial(a, 1).threads == [Idle];
    } else {
      states, steps := ReplaceMany(a, b, n - 1);
      states, steps := ReplaceOnce(a, b, n - 1, states, steps);
    }
  }

  /**
   The bound is real: some run makes 2^32 replacements after a cache was filled, and then a call is
   answered from that cache, which nobody touched, with a client that was current at no instant of
   the call.
   */
  lemma StaleAnswer<C(!new)>(a: C, b: C)
    returns (states: seq<State<C>>, steps: seq<Step<C>>, r: Returned<C>)
    requires a != b
    ensures IsRun(states, steps) && r in states[|steps|].log
    ensures r.cached.Some? && r.cached.value.pristine && r.seen - r.cached.value.seen == GENERATIONS
    ensures 1 <= r.since <= r.until <= |states[|steps|].history| && !CurrentDuring(states[|steps|].history, r)
  {
    var n := GENERATIONS;
    LaterIs(a, b, n);
    states, steps := ReplaceMany(a, b, n);
    states, steps := Extended(states, steps, Start(0, Cow(0)));
    assert states[|steps|] == Replaced(a, b, n, Checks(Cow(0), n + 1));
    states, steps := Extended(states, steps, Check(0));
    assert states[|steps|] == Replaced(a, b, n, Unchanged(Cow(0), n + 1, n + 1));
    states, steps := Extended(states, steps, Return(0));
    r := Returned(a, n + 1, n + 1, n + 1, Some(Cache(a, 0, 1, true)));
    assert states[|steps|].log == [r] && states[|steps|].history == Later(a, b, n);
  }

  // ----- what never goes back -----

  lemma StepGrows<C(!new)>(s: State<C>, step: Step<C>)
    requires Inv(s) && Enabled(s, step)
    ensures s.history <= Apply(s, step).history && |s.instances| <= |Apply(s, step).instances|
    ensures forall i :: 0 <= i < |s.instances| ==> s.instances[i].seen <= Apply(s, step).instances[i].seen
  {
    if step.Return? { assert ThreadOk(s, s.threads[step.t]); }
  }

  /** Histories only grow, and cached clones are only replaced by later ones. */
  lemma {:induction false} RunGrows<C(!new)>(states: seq<State<C>>, steps: seq<Step<C>>, j: nat, k: nat)
    requires IsRun(states, steps) && j <= k < |states|
    ensures states[j].history <= states[k].history && |states[j].instances| <= |states[k].instances|
    ensures forall i :: 0 <= i < |states[j].instances| ==> states[j].instances[i].seen <= states[k].instances[i].seen
    decreases k - j
  {
    if j < k {
      RunGrows(states, steps, j, k - 1);
      RunInv(states, steps, k - 1);
      assert StepOk(states, steps, k - 1);
      StepGrows(states[k - 1], steps[k - 1]);
    }
  }

  /** Up to 2^32 clients in all, the generations of cached clones only grow. */
  lemma GenerationsGrow<C(!new)>(states: seq<State<C>>, steps: seq<Step<C>>, j: nat, k: nat, i: nat)
    requires IsRun(states, steps) && j <= k < |states| && i < |states[j].instances|
    requires |states[k].history| <= GENERATIONS
    ensures |states[j].instances| <= |states[k].instances|
    ensures states[j].instances[i].generation <= states[k].instances[i].generation
  {
    RunGrows(states, steps, j, k);
    RunInv(states, steps, j);
    RunInv(states, steps, k);
    assert CacheOk(states[j].history, states[j].instances[i]) && CacheOk(states[k].history, states[k].instances[i]);
  }

  // ----- what becomes of an answer -----

  /** A clone is always made from the shared client. */
  ghost predicate CopyFetches<C>(op: Op<C>) { IsCall(op) && op.call.Copy? ==> !op.Checks? && !op.Unchanged? }

  lemma {:induction false} ClonesFetch<C(!new)>(states: seq<State<C>>, steps: seq<Step<C>>, k: nat, t: nat)
    requires IsRun(states, steps) && k < |states| && t < |states[k].threads|
    ensures CopyFetches(states[k].threads[t])
    decreases k
  {
    if k == 0 {
      var c, n :| states[0] == Initial(c, n);
    } else {
      assert StepOk(states, steps, k - 1);
      ClonesFetch(states, steps, k - 1, t);
    }
  }

  /**
   When a call returns, what it fetched becomes the cache of the instance it refreshed or of the new
   instance that a clone is; everything else about the instances stays.
   */
  lemma ReturnDelivers<C(!new)>(states: seq<State<C>>, steps: seq<Step<C>>, k: nat, t: nat)
    requires IsRun(states, steps) && k < |steps| && steps[k] == Return(t)
    ensures var before, after := states[k].instances, states[k + 1].instances;
            && t < |states[k].threads| && IsCall(states[k].threads[t]) && states[k + 1].log != []
            && var op, r := states[k].threads[t], states[k + 1].log[|states[k + 1].log| - 1];
               var i := op.call.instance;
               && i < |before| <= |after|
               && (forall j :: 0 <= j < |before| && (j != i || !op.call.Refresh?) ==> after[j] == before[j])
               && (op.call.Refresh? ==>
                     && |after| == |before|
                     && after[i] == if r.cached.Some? then before[i]
                                    else Cache(r.client, (r.seen - 1) % GENERATIONS, r.seen, true))
               && (op.call.Copy? ==>
                     && r.cached.None? && |after| == |before| + 1
                     && after[|before|] == Cache(r.client, (r.seen - 1) % GENERATIONS, r.seen, true))
               && (op.call.Cow? ==> after == before)
  {
    assert StepOk(states, steps, k);
    RunInv(states, steps, k);
    ClonesFetch(states, steps, k, t);
    assert ThreadOk(states[k], states[k].threads[t]);
  }

  /** While a call is under way, only its own return changes the cache of its instance. */
  lemma CacheIsStable<C(!new)>(states: seq<State<C>>, steps: seq<Step<C>>, k: nat, u: nat)
    requires IsRun(states, steps) && k < |steps| && steps[k] != Return(u)
    requires u < |states[k].threads| && IsCall(states[k].threads[u])
    ensures var i := states[k].threads[u].call.instance;
            && i < |states[k].instances| <= |states[k + 1].instances|
            && states[k + 1].instances[i] == states[k].instances[i]
  {
    var s, step := states[k], steps[k];
    assert StepOk(states, steps, k);
    RunInv(states, steps, k);
    assert ThreadOk(s, s.threads[u]);
    if step.Return? {
      assert ThreadOk(s, s.threads[step.t]) && Exclusive(s.threads[u], s.threads[step.t]);
    }
  }

  // ----- one's own replacement -----

  ghost predicate InCall<C>(s: State<C>, t: nat, since: nat) {
    t < |s.threads| && IsCall(s.threads[t]) && s.threads[t].since == since
  }

  lemma CallGoesOn<C(!new)>(s: State<C>, step: Step<C>, t: nat, since: nat)
    requires InCall(s, t, since) && Enabled(s, step) && step != Return(t)
    ensures InCall(Apply(s, step), t, since)
  {
  }

  /** The call that thread `t` starts at step `j` is still going on before step `k`. */
  lemma {:induction false} StillInCall<C(!new)>(states: seq<State<C>>, steps: seq<Step<C>>, t: nat, j: nat, k: nat)
    requires IsRun(states, steps) && j < k < |states| && steps[j].Start? && steps[j].t == t
    requires forall m :: j < m < k ==> steps[m] != Return(t)
    ensures InCall(states[k], t, |states[j].history|)
    decreases k
  {
    assert StepOk(states, steps, k - 1);
    if j < k - 1 {
      StillInCall(states, steps, t, j, k - 1);
      CallGoesOn(states[k - 1], steps[k - 1], t, |states[j].history|);
    }
  }

  /** The answer was installed as number `n` of the history or later. */
  ghost predicate AtOrAfter<C>(history: seq<C>, r: Returned<C>, n: nat) {
    exists p :: n - 1 <= p < |history| && 0 <= p && history[p] == r.client
  }

  /** The answer does not come from a clone that was cached when the history was shorter than `n`. */
  ghost predicate CachedSince<C>(r: Returned<C>, n: nat) { r.cached.Some? ==> r.cached.value.seen >= n }

  lemma AnswerSince<C>(history: seq<C>, r: Returned<C>, n: nat)
    requires ReturnOk(history, r) && (r.cached.Some? ==> r.cached.value.pristine) && 1 <= n <= r.since
    ensures CachedSince(r, n) ==> AtOrAfter(history, r, n)
    ensures AllDifferent(history) && AtOrAfter(history, r, n) ==> CachedSince(r, n)
    ensures UpToDate(r) ==> CachedSince(r, n)
  {
    if CachedSince(r, n) {
      var p := if r.cached.Some? then r.cached.value.seen - 1 else r.seen - 1;
      assert history[p] == r.client;
    } else if AtOrAfter(history, r, n) {
      var p :| n - 1 <= p < |history| && 0 <= p && history[p] == r.client;
      assert history[r.cached.value.seen - 1] == history[p];
    }
  }

  /**
   A thread that replaced the client and then calls: if the replacement made the history `n` long,
   the answer is the client it installed or a later one, unless it comes from a clone that was
   cached before the replacement. Where clients can be told apart, exactly then.
   */
  lemma SeesOwnReplacement<C(!new)>(states: seq<State<C>>, steps: seq<Step<C>>, t: nat, i: nat, j: nat, k: nat)
    returns (r: Returned<C>)
    requires IsRun(states, steps) && i < j < k < |steps|
    requires t < |states[i].threads| && states[i].threads[t].ReplaceBumped?
    requires steps[j].Start? && steps[j].t == t && steps[k] == Return(t)
    requires forall m :: j < m < k ==> steps[m] != Return(t)
    ensures states[k + 1].log == states[k].log + [r] && r.since >= states[i].threads[t].seen
    ensures var n, h := states[i].threads[t].seen, states[k + 1].history;
            (r.cached.Some? ==> r.cached.value.pristine) ==>
              && (CachedSince(r, n) ==> AtOrAfter(h, r, n))
              && (AllDifferent(h) && AtOrAfter(h, r, n) ==> CachedSince(r, n))
              && (UpToDate(r) ==> CachedSince(r, n))
  {
    StillInCall(states, steps, t, j, k);
    RunGrows(states, steps, i, j);
    RunInv(states, steps, i);
    RunInv(states, steps, k);
    RunInv(states, steps, k + 1);
    assert StepOk(states, steps, k);
    assert ThreadOk(states[i], states[i].threads[t]) && ThreadOk(states[k], states[k].threads[t]);
    r := states[k + 1].log[|states[k].log|];
    assert r in states[k + 1].log;
    if r.cached.Some? ==> r.cached.value.pristine {
      AnswerSince(states[k + 1].history, r, states[i].threads[t].seen);
    }
  }
}
