/**
 Nothing in the replaceable client waits for ever: from every state that the protocol can be in, what
 has begun can be brought to its end, and then anything can begin (crates/client/src/replaceable.rs).
 */
module ClientProgress {
  import opened Common
  import opened ClientProtocol

  /** Steps of the callers' own making; all others go on with a call or a replacement. */
  predicate Begins<C>(step: Step<C>) { step.StartReplace? || step.Start? || step.Mutate? }

  /** What a thread does next. */
  function NextStep<C>(op: Op<C>, t: nat): Step<C>
    requires !op.Idle?
  {
    match op
    case ReplaceWaits(_, _) => LockWrite(t)
    case ReplaceLocked(_, _) => Store(t)
    case ReplaceStored(_, _) => Bump(t)
    case ReplaceBumped(_, _, _) => UnlockWrite(t)
    case Checks(_, _) => Check(t)
    case FetchWaits(_, _) => LockRead(t)
    case FetchLocked(_, _) => CloneClient(t)
    case FetchCloned(_, _, _) => LoadGeneration(t)
    case FetchLoaded(_, _, _, _, _) => UnlockRead(t)
    case Unchanged(_, _, _) => Return(t)
    case Fetched(_, _, _, _, _) => Return(t)
  }

  ghost predicate AllIdle<C>(s: State<C>) { forall t :: 0 <= t < |s.threads| ==> s.threads[t].Idle? }

  // ----- no deadlock -----

  /** Whoever holds the lock can go on. */
  lemma HolderGoesOn<C(!new)>(s: State<C>, u: nat)
    requires u < |s.threads| && (Writes(s.threads[u]) || Reads(s.threads[u]))
    ensures Enabled(s, NextStep(s.threads[u], u))
  {
  }

  /** As long as a thread is not done, some thread can go on. */
  lemma NoDeadlock<C(!new)>(s: State<C>, t: nat) returns (u: nat)
    requires Inv(s) && t < |s.threads| && !s.threads[t].Idle?
    ensures u < |s.threads| && !s.threads[u].Idle? && Enabled(s, NextStep(s.threads[u], u))
  {
    assert ThreadOk(s, s.threads[t]);
    if v :| 0 <= v < |s.threads| && (Writes(s.threads[v]) || Reads(s.threads[v])) {
      HolderGoesOn(s, v);
      u := v;
    } else {
      u := t;
    }
  }

  // ----- how much is left to do -----

  /** How many more steps a thread takes at most. */
  function StepsLeft<C>(op: Op<C>): nat {
    match op
    case Idle => 0
    case ReplaceWaits(_, _) => 4
    case ReplaceLocked(_, _) => 3
    case ReplaceStored(_, _) => 2
    case ReplaceBumped(_, _, _) => 1
    case Checks(_, _) => 6
    case FetchWaits(_, _) => 5
    case FetchLocked(_, _) => 4
    case FetchCloned(_, _, _) => 3
    case FetchLoaded(_, _, _, _, _) => 2
    case Unchanged(_, _, _) => 1
    case Fetched(_, _, _, _, _) => 1
  }

  /** Answers still to come. */
  function Answers<C>(op: Op<C>): nat { if IsCall(op) then 1 else 0 }

  /** Replacements still to take effect. */
  function Replacements<C>(op: Op<C>): nat {
    if op.ReplaceWaits? || op.ReplaceLocked? || op.ReplaceStored? then 1 else 0
  }

  function Sum<C>(ops: seq<Op<C>>, f: Op<C> -> nat): nat
    decreases |ops|
  {
    if ops == [] then 0 else f(ops[0]) + Sum(ops[1..], f)
  }

  lemma {:induction false} SumUpdate<C>(ops: seq<Op<C>>, u: nat, op: Op<C>, f: Op<C> -> nat)
    requires u < |ops|
    ensures Sum(ops[u := op], f) + f(ops[u]) == Sum(ops, f) + f(op)
    decreases |ops|
  {
    var updated := ops[u := op];
    if u == 0 {
      assert updated[1..] == ops[1..];
    } else {
      SumUpdate(ops[1..], u - 1, op, f);
      assert updated[1..] == ops[1..][u - 1 := op];
    }
  }

  lemma {:induction false} NothingLeft<C>(ops: seq<Op<C>>, f: Op<C> -> nat)
    requires forall k :: 0 <= k < |ops| ==> f(ops[k]) == 0
    ensures Sum(ops, f) == 0
    decreases |ops|
  {
    if ops != [] { NothingLeft(ops[1..], f); }
  }

  ghost function AnswersLeft<C>(s: State<C>): nat { Sum(s.threads, op => Answers(op)) }

  ghost function ReplacementsLeft<C>(s: State<C>): nat { Sum(s.threads, op => Replacements(op)) }

  ghost function Left<C>(s: State<C>): nat { Sum(s.threads, op => StepsLeft(op)) }

  /** The step of one thread takes it closer to its end; a call is answered and a replacement takes effect once. */
  lemma ThreadGoesOn<C(!new)>(s: State<C>, u: nat, s': State<C>)
    requires u < |s.threads| && !s.threads[u].Idle? && Enabled(s, NextStep(s.threads[u], u))
    requires s' == Apply(s, NextStep(s.threads[u], u))
    ensures |s'.threads| == |s.threads| && s'.threads == s.threads[u := s'.threads[u]]
    ensures StepsLeft(s'.threads[u]) < StepsLeft(s.threads[u])
    ensures |s'.log| + Answers(s'.threads[u]) == |s.log| + Answers(s.threads[u])
    ensures |s'.history| + Replacements(s'.threads[u]) == |s.history| + Replacements(s.threads[u])
    ensures |s'.instances| >= |s.instances|
  {
  }

  /** `s'` is closer to the end than `s`, and what was to come has come or is still to come. */
  ghost predicate Closer<C>(s: State<C>, s': State<C>) {
    && |s'.threads| == |s.threads| && |s'.instances| >= |s.instances| && Left(s') < Left(s)
    && |s'.log| + AnswersLeft(s') == |s.log| + AnswersLeft(s)
    && |s'.history| + ReplacementsLeft(s') == |s.history| + ReplacementsLeft(s)
  }

  lemma GoesOn<C(!new)>(s: State<C>, u: nat, s': State<C>)
    requires u < |s.threads| && !s.threads[u].Idle? && Enabled(s, NextStep(s.threads[u], u))
    requires s' == Apply(s, NextStep(s.threads[u], u))
    ensures Closer(s, s')
  {
    ThreadGoesOn(s, u, s');
    SumsGo(s, u, s');
  }

  lemma SumsGo<C>(s: State<C>, u: nat, s': State<C>)
    requires u < |s.threads| == |s'.threads| && s'.threads == s.threads[u := s'.threads[u]]
    ensures Left(s') + StepsLeft(s.threads[u]) == Left(s) + StepsLeft(s'.threads[u])
    ensures AnswersLeft(s') + Answers(s.threads[u]) == AnswersLeft(s) + Answers(s'.threads[u])
    ensures ReplacementsLeft(s') + Replacements(s.threads[u]) == ReplacementsLeft(s) + Replacements(s'.threads[u])
  {
    SumUpdate(s.threads, u, s'.threads[u], op => StepsLeft(op));
    SumUpdate(s.threads, u, s'.threads[u], op => Answers(op));
    SumUpdate(s.threads, u, s'.threads[u], op => Replacements(op));
  }

  lemma OneStepCloser<C(!new)>(s: State<C>, t: nat) returns (step: Step<C>, s': State<C>)
    requires Inv(s) && t < |s.threads| && !s.threads[t].Idle?
    ensures Enabled(s, step) && !Begins(step) && s' == Apply(s, step)
    ensures Inv(s') && Closer(s, s')
  {
    var u := NoDeadlock(s, t);
    step := NextStep(s.threads[u], u);
    s' := Apply(s, step);
    StepKeeps(s, step);
    GoesOn(s, u, s');
  }

  // ----- every call can be answered -----

  /** The steps can be taken one after another, and lead from `s` to `s'`. */
  ghost predicate Leads<C(!new)>(s: State<C>, steps: seq<Step<C>>, s': State<C>)
    decreases |steps|
  {
    if steps == [] then s' == s
    else Enabled(s, steps[0]) && Leads(Apply(s, steps[0]), steps[1..], s')
  }

  ghost predicate NoneBegins<C>(steps: seq<Step<C>>) { forall k :: 0 <= k < |steps| ==> !Begins(steps[k]) }

  lemma Prepend<C(!new)>(s: State<C>, step: Step<C>, rest: seq<Step<C>>, s': State<C>)
    requires Enabled(s, step) && Leads(Apply(s, step), rest, s')
    ensures Leads(s, [step] + rest, s')
  {
    assert ([step] + rest)[1..] == rest;
  }

  lemma IdleIsDone<C>(s: State<C>)
    requires AllIdle(s)
    ensures AnswersLeft(s) == 0 && ReplacementsLeft(s) == 0
  {
    NothingLeft(s.threads, op => Answers(op));
    NothingLeft(s.threads, op => Replacements(op));
  }

  /**
   From every state, what has begun can be brought to its end without anything new: every call under way
   is then answered, once, and every replacement under way has taken effect, once.
   */
  lemma {:induction false} EverythingEnds<C(!new)>(s: State<C>) returns (steps: seq<Step<C>>, s': State<C>)
    requires Inv(s)
    ensures Leads(s, steps, s') && NoneBegins(steps)
    ensures Inv(s') && AllIdle(s')
    ensures |s'.threads| == |s.threads| && |s'.instances| >= |s.instances|
    ensures |s'.log| == |s.log| + AnswersLeft(s) && |s'.history| == |s.history| + ReplacementsLeft(s)
    decreases Left(s)
  {
    if t :| 0 <= t < |s.threads| && !s.threads[t].Idle? {
      var step, next := OneStepCloser(s, t);
      var rest;
      rest, s' := EverythingEnds(next);
      steps := [step] + rest;
      Prepend(s, step, rest, s');
    } else {
      steps, s' := [], s;
      IdleIsDone(s);
    }
  }

  /** Rust's borrows: a refresh and a change of the cache need an instance for themselves. */
  predicate InTheWay<C>(op: Op<C>, step: Step<C>) {
    IsCall(op) &&
    match step
    case Mutate(i, _) => op.call.instance == i
    case Start(_, call) => op.call.instance == call.instance && (op.call.Refresh? || call.Refresh?)
    case _ => false
  }

  /** Nothing but that keeps an idle thread from beginning what it likes. */
  lemma CanBeginIff<C(!new)>(s: State<C>, step: Step<C>)
    requires Begins(step)
    requires step.Mutate? ==> step.instance < |s.instances|
    requires !step.Mutate? ==> step.t < |s.threads|
    requires step.Start? ==> step.call.instance < |s.instances|
    ensures Enabled(s, step) <==>
            && (!step.Mutate? ==> s.threads[step.t].Idle?)
            && forall u :: 0 <= u < |s.threads| ==> !InTheWay(s.threads[u], step)
  {
  }

  /** A call that begins alone is the only one to be answered. */
  lemma CallIsAnswered<C(!new)>(s: State<C>, t: nat, call: Call) returns (rest: seq<Step<C>>, s': State<C>)
    requires Inv(s) && AllIdle(s) && Enabled(s, Start(t, call))
    ensures Leads(s, [Start(t, call)] + rest, s') && NoneBegins(rest)
    ensures AllIdle(s') && |s'.log| == |s.log| + 1
  {
    var start := Start(t, call);
    var next := Apply(s, start);
    StepKeeps(s, start);
    rest, s' := EverythingEnds(next);
    Prepend(s, start, rest, s');
    IdleIsDone(s);
    SumsGo(s, t, next);
  }

  /**
   After any run, every thread can still make any call on any instance, whatever the other threads are at:
   once they are done, the call can begin and is answered.
   */
  lemma EveryCallIsAnswered<C(!new)>(states: seq<State<C>>, run: seq<Step<C>>, t: nat, call: Call)
    returns (before: seq<Step<C>>, begun: State<C>, rest: seq<Step<C>>, s': State<C>)
    requires IsRun(states, run)
    requires var s := states[|run|]; t < |s.threads| && call.instance < |s.instances|
    ensures Leads(states[|run|], before, begun) && NoneBegins(before)
    ensures |begun.log| == |states[|run|].log| + AnswersLeft(states[|run|])
    ensures Leads(begun, [Start(t, call)] + rest, s') && NoneBegins(rest) && |s'.log| == |begun.log| + 1
  {
    RunInv(states, run, |run|);
    before, begun := EverythingEnds(states[|run|]);
    CanBeginIff(begun, Start(t, call));
    rest, s' := CallIsAnswered(begun, t, call);
  }
}
