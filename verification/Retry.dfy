/**
 When a failed call to the server is tried again, and after which delay
 (crates/client/src/retry.rs). Times are in seconds.
 */
module Retry {
  import opened Common
  import opened Text

  datatype Code =
    | OkCode | Cancelled | Unknown | InvalidArgument | DeadlineExceeded | NotFound | AlreadyExists
    | PermissionDenied | ResourceExhausted | FailedPrecondition | Aborted | OutOfRange | Unimplemented
    | Internal | Unavailable | DataLoss | Unauthenticated

  const RETRYABLE: set<Code> := {DataLoss, Internal, Unknown, ResourceExhausted, Aborted, OutOfRange, Unavailable}

  const FATAL_GRACE := 60.0

  datatype Marker = ShortCircuited | TooLarge

  /** `transport` says whether the error came from the connection, `markers` what was noted on it. */
  datatype Status = Status(code: Code, message: string, transport: bool, markers: set<Marker>)

  datatype Options = Options(
    initial: real, randomization: real, multiplier: real, max: real, budget: Option<real>, maxRetries: nat)

  /** Durations and the multiplier are not negative. */
  predicate ValidOptions(o: Options) {
    o.initial >= 0.0 && o.max >= 0.0 && o.multiplier >= 0.0 && (o.budget.Some? ==> o.budget.value >= 0.0)
  }

  const TASK_POLL := Options(0.2, 0.2, 2.0, 10.0, None, 0)
  const THROTTLE := Options(1.0, 0.2, 2.0, 10.0, None, 0)

  datatype CallType = Normal | UserLongPoll | TaskLongPoll

  type Matcher = Status -> bool

  /** What the request says about its retries. */
  datatype Extensions = Extensions(userPoll: bool, taskPoll: bool, noRetryOn: Option<Matcher>,
      override: Option<Options>)

  datatype CallInfo = CallInfo(callType: CallType, options: Options, noRetryOn: Option<Matcher>)

  /** `get_call_info`. */
  function GetCallInfo(defaults: Options, request: Option<Extensions>): CallInfo {
    match request
    case None => CallInfo(Normal, defaults, None)
    case Some(ext) =>
      var callType := if ext.userPoll then UserLongPoll else if ext.taskPoll then TaskLongPoll else Normal;
      var options :=
        if ext.override.Some? then ext.override.value
        else if callType == TaskLongPoll then TASK_POLL
        else defaults;
      CallInfo(callType, options, ext.noRetryOn)
  }

  // ----- delays -----

  function Max(x: real, y: real): (r: real)
    ensures x <= r && y <= r && (r == x || r == y)
  {
    if x < y then y else x
  }

  function Min(x: real, y: real): (r: real)
    ensures r <= x && r <= y && (r == x || r == y)
  {
    if x < y then x else y
  }

  predicate IsDraw(d: real) { 0.0 <= d < 1.0 }

  function Offset(spread: real, x: real): real { spread * x }

  /** `jittered`, given its random draw. */
  function Jittered(base: real, randomization: real, draw: real): real {
    if randomization <= 0.0 then base
    else Max(base + Offset(randomization * base, 2.0 * draw - 1.0), 0.0)
  }

  /** `current` is the last undisturbed delay. */
  datatype Backoff = Backoff(options: Options, startedAt: real, current: Option<real>)

  /** The delay after `c`, which multiplied is `grown`. */
  function Capped(c: real, grown: real, max: real): real { if c < max then Min(grown, max) else max }

  function NextBase(b: Backoff): real {
    match b.current
    case None => b.options.initial
    case Some(c) => Capped(c, c * b.options.multiplier, b.options.max)
  }

  function Advance(b: Backoff): Backoff { b.(current := Some(NextBase(b))) }

  /** What `next_backoff` returns; it always advances. */
  function Delay(b: Backoff, draw: real, now: real): Option<real> {
    var delay := Jittered(NextBase(b), b.options.randomization, draw);
    if b.options.budget.Some? && now - b.startedAt + delay > b.options.budget.value then None else Some(delay)
  }

  // ----- errors -----

  /** `WaitRetry` with its delay, or `ForwardError`. */
  datatype Policy = Wait(delay: real) | Forward(error: Status)

  datatype Handler = Handler(
    backoff: Backoff, throttle: Backoff, maxInterval: real, startedAt: real, maxRetries: nat, callType: CallType,
    noRetryOn: Option<Matcher>)

  function NewHandler(info: CallInfo, now: real): Handler {
    Handler(Backoff(info.options, now, None), Backoff(THROTTLE, now, None), info.options.max, now,
            info.options.maxRetries, info.callType, info.noRetryOn)
  }

  predicate OutOfAttempts(h: Handler, attempt: nat) { h.maxRetries > 0 && attempt >= h.maxRetries }

  predicate ShortCircuits(h: Handler, e: Status) { h.noRetryOn.Some? && h.noRetryOn.value(e) }

  predicate IsTooLarge(e: Status) {
    && e.code == ResourceExhausted
    && (|| StartsWith(e.message, "grpc: received message larger than max")
        || StartsWith(e.message, "grpc: message after decompression larger than max")
        || StartsWith(e.message, "grpc: received message after decompression larger than max"))
  }

  predicate IsRetryable(h: Handler, e: Status) {
    || e.code in RETRYABLE
    || (h.callType == TaskLongPoll && (e.code == Cancelled || e.code == DeadlineExceeded))
    || (e.code == Cancelled && e.transport)
  }

  /** An error as it reaches the handler: when, and with which random draws. */
  datatype Event = Event(error: Status, now: real, draw: real, throttleDraw: real)

  predicate ValidEvent(e: Event) { IsDraw(e.draw) && IsDraw(e.throttleDraw) }

  predicate GivesUp(h: Handler, attempt: nat, e: Status) {
    OutOfAttempts(h, attempt) || ShortCircuits(h, e) || IsTooLarge(e)
  }

  /** What `handle` decides. */
  function Decide(h: Handler, attempt: nat, e: Event): Policy {
    if OutOfAttempts(h, attempt) then Forward(e.error)
    else if ShortCircuits(h, e.error) then Forward(e.error.(markers := e.error.markers + {ShortCircuited}))
    else if IsTooLarge(e.error) then Forward(e.error.(markers := e.error.markers + {TooLarge}))
    else if IsRetryable(h, e.error) then
      match Delay(h.backoff, e.draw, e.now)
      case None => Forward(e.error)
      case Some(delay) =>
        if e.error.code == ResourceExhausted then
          var throttled := Delay(h.throttle, e.throttleDraw, e.now);
          Wait(Max(delay, if throttled.Some? then throttled.value else 0.0))
        else Wait(delay)
    else if h.callType == TaskLongPoll && e.now - h.startedAt <= FATAL_GRACE then Wait(h.maxInterval)
    else Forward(e.error)
  }

  /** How `handle` changes the handler. */
  function After(h: Handler, attempt: nat, e: Event): Handler {
    if GivesUp(h, attempt, e.error) || !IsRetryable(h, e.error) then h
    else if Delay(h.backoff, e.draw, e.now).Some? && e.error.code == ResourceExhausted then
      h.(backoff := Advance(h.backoff), throttle := Advance(h.throttle))
    else h.(backoff := Advance(h.backoff))
  }

  // ----- the objects -----

  /** `JitteredBackoff`. */
  class JitteredBackoff {
    const options: Options
    const startedAt: real
    var current: Option<real>

    function Model(): Backoff
      reads this
    {
      Backoff(options, startedAt, current)
    }

    constructor (options: Options, now: real)
      ensures Model() == Backoff(options, now, None)
    {
      this.options := options;
      startedAt := now;
      current := None;
    }

    method NextBackoff(draw: real, now: real) returns (delay: Option<real>)
      modifies this
      ensures Model() == Advance(old(Model()))
      ensures delay == Delay(old(Model()), draw, now)
    {
      var base := options.initial;
      if current.Some? {
        base := current.value;
        var grown := base * options.multiplier;
        if base < options.max { base := grown; }
        if base > options.max { base := options.max; }
        assert base == Capped(current.value, grown, options.max);
      }
      assert base == NextBase(old(Model()));
      current := Some(base);
      var d := Jittered(base, options.randomization, draw);
      if options.budget.Some? && now - startedAt + d > options.budget.value { return None; }
      delay := Some(d);
    }
  }

  /** `TonicErrorHandler`. */
  class TonicErrorHandler {
    const backoff: JitteredBackoff
    const throttle: JitteredBackoff
    const maxInterval: real
    const startedAt: real
    const maxRetries: nat
    const callType: CallType
    const noRetryOn: Option<Matcher>

    ghost predicate Valid() { backoff != throttle }

    function Model(): Handler
      reads backoff, throttle
    {
      Handler(backoff.Model(), throttle.Model(), maxInterval, startedAt, maxRetries, callType, noRetryOn)
    }

    constructor (info: CallInfo, now: real)
      ensures Valid() && fresh(backoff) && fresh(throttle) && Model() == NewHandler(info, now)
    {
      backoff := new JitteredBackoff(info.options, now);
      throttle := new JitteredBackoff(THROTTLE, now);
      maxInterval := info.options.max;
      startedAt := now;
      maxRetries := info.options.maxRetries;
      callType := info.callType;
      noRetryOn := info.noRetryOn;
    }

    method Handle(attempt: nat, e: Event) returns (policy: Policy)
      requires Valid()
      modifies backoff, throttle
      ensures Model() == After(old(Model()), attempt, e)
      ensures policy == Decide(old(Model()), attempt, e)
    {
      if maxRetries > 0 && attempt >= maxRetries { return Forward(e.error); }
      if noRetryOn.Some? && noRetryOn.value(e.error) {
        return Forward(e.error.(markers := e.error.markers + {ShortCircuited}));
      }
      if IsTooLarge(e.error) { return Forward(e.error.(markers := e.error.markers + {TooLarge})); }
      if IsRetryable(Model(), e.error) {
        var delay := backoff.NextBackoff(e.draw, e.now);
        if delay.None? { return Forward(e.error); }
        if e.error.code == ResourceExhausted {
          var throttled := throttle.NextBackoff(e.throttleDraw, e.now);
          return Wait(Max(delay.value, if throttled.Some? then throttled.value else 0.0));
        }
        return Wait(delay.value);
      }
      if callType == TaskLongPoll && e.now - startedAt <= FATAL_GRACE { return Wait(maxInterval); }
      return Forward(e.error);
    }
  }

  // ----- runs -----

  /** The handler before the error number `k`, counted from zero. */
  function HandlerAt(h: Handler, events: seq<Event>, k: nat): Handler
    requires k <= |events|
    decreases k
  {
    if k == 0 then h else After(HandlerAt(h, events, k - 1), k, events[k - 1])
  }

  function PolicyAt(h: Handler, events: seq<Event>, k: nat): Policy
    requires k < |events|
  {
    Decide(HandlerAt(h, events, k), k + 1, events[k])
  }

  /** The error number `k` was answered by another attempt after this delay. */
  ghost predicate Answered(h: Handler, events: seq<Event>, k: nat, delay: real) {
    k < |events| && ValidEvent(events[k]) && PolicyAt(h, events, k) == Wait(delay)
  }

  /** Every error so far was answered by another attempt, after these delays. */
  ghost predicate AllRetried(h: Handler, events: seq<Event>, delays: seq<real>) {
    |delays| == |events| && forall k :: 0 <= k < |events| ==> Answered(h, events, k, delays[k])
  }

  /** Only the progress of the two backoffs changes. */
  ghost predicate SameSettings(h: Handler, h': Handler) {
    h' == h.(backoff := h'.backoff, throttle := h'.throttle)
    && h'.backoff == h.backoff.(current := h'.backoff.current)
    && h'.throttle == h.throttle.(current := h'.throttle.current)
  }

  lemma {:induction false} SettingsKept(h: Handler, events: seq<Event>, k: nat)
    requires k <= |events|
    ensures SameSettings(h, HandlerAt(h, events, k))
    decreases k
  {
    if k > 0 { SettingsKept(h, events, k - 1); }
  }

  /** There are never more attempts than a positive `max_retries`. */
  lemma AttemptsAreBounded(h: Handler, events: seq<Event>, delays: seq<real>)
    requires AllRetried(h, events, delays) && h.maxRetries > 0
    ensures |events| + 1 <= h.maxRetries
  {
    if events != [] {
      var k := |events| - 1;
      SettingsKept(h, events, k);
      assert Answered(h, events, k, delays[k]);
    }
  }

  // ----- bounds on delays -----

  /** The ends of the range that jitter draws from. */
  function Lowest(base: real, randomization: real): real { base - randomization * base }

  function Highest(base: real, randomization: real): real { base + randomization * base }

  lemma Scale(x: real, y: real, f: real)
    requires x <= y && f >= 0.0
    ensures x * f <= y * f
  {
    Distribute(x, y, f);
    Product(y - x, f);
  }

  lemma Product(a: real, b: real)
    requires a >= 0.0 && b >= 0.0
    ensures a * b >= 0.0 && (a > 0.0 && b > 0.0 ==> a * b > 0.0)
  {
  }

  lemma Distribute(x: real, y: real, f: real)
    ensures (y - x) * f == y * f - x * f
  {
  }

  lemma Sides(base: real, randomization: real)
    ensures Lowest(base, randomization) == (1.0 - randomization) * base
  {
    Distribute(randomization, 1.0, base);
  }

  lemma JitterBounds(base: real, randomization: real, draw: real)
    requires base >= 0.0 && IsDraw(draw)
    ensures randomization >= 0.0 ==>
              Lowest(base, randomization) <= Jittered(base, randomization, draw) <= Highest(base, randomization)
    ensures Jittered(base, randomization, draw) >= 0.0
  {
    Product(Max(randomization, 0.0), base);
    JitterSpread(base, randomization, randomization * base, 2.0 * draw - 1.0, draw);
  }

  /** How much of the base a draw leaves, or adds to. */
  function Share(randomization: real, draw: real): real {
    1.0 + Max(randomization, 0.0) * (2.0 * draw - 1.0)
  }

  /** The delay is that share of the base, or nothing if the factor is so large that the share is negative. */
  lemma JitterIs(base: real, randomization: real, draw: real)
    requires base >= 0.0
    ensures Share(randomization, draw) >= 0.0 ==>
              Jittered(base, randomization, draw) == base * Share(randomization, draw)
    ensures Share(randomization, draw) <= 0.0 ==> Jittered(base, randomization, draw) == 0.0
  {
    var x := 2.0 * draw - 1.0;
    var share := Share(randomization, draw);
    if randomization > 0.0 {
      Regroup(base, randomization, x);
      if share >= 0.0 { Product(base, share); }
      if share <= 0.0 { Product(base, -share); }
      assert base * -share == -(base * share);
    }
  }

  /** A factor of at most 1 never asks for less than nothing. */
  lemma ShareIsPositive(randomization: real, draw: real)
    requires randomization <= 1.0 && IsDraw(draw)
    ensures Share(randomization, draw) >= 0.0
  {
    var factor, x := Max(randomization, 0.0), 2.0 * draw - 1.0;
    Within(factor, x);
    assert Share(randomization, draw) == 1.0 + Offset(factor, x);
  }

  lemma Regroup(base: real, r: real, x: real)
    ensures base + Offset(r * base, x) == base * (1.0 + r * x)
  {
    assert (r * base) * x == base * (r * x);
    assert base * (1.0 + r * x) == base + base * (r * x);
  }

  /** Every delay in the range comes from exactly one draw; the draw in the middle changes nothing. */
  lemma JitterDraw(base: real, randomization: real, delay: real) returns (draw: real)
    requires base > 0.0 && 0.0 < randomization <= 1.0
    requires Lowest(base, randomization) <= delay < Highest(base, randomization)
    ensures IsDraw(draw) && Jittered(base, randomization, draw) == delay
    ensures forall d :: IsDraw(d) && Jittered(base, randomization, d) == delay ==> d == draw
    ensures Jittered(base, randomization, 0.5) == base
  {
    var spread := randomization * base;
    Product(randomization, base);
    draw := ((delay - base) / spread + 1.0) / 2.0;
    DrawOf(base, spread, delay, draw);
    forall d | IsDraw(d) ensures Jittered(base, randomization, d) == base + spread * (2.0 * d - 1.0) {
      JitterIs(base, randomization, d);
      ShareIsPositive(randomization, d);
      Regroup(base, randomization, 2.0 * d - 1.0);
    }
    forall d | IsDraw(d) && Jittered(base, randomization, d) == delay ensures d == draw {
      SameDraw(spread, 2.0 * d - 1.0, 2.0 * draw - 1.0);
    }
  }

  lemma SameDraw(spread: real, x: real, y: real)
    requires spread > 0.0 && spread * x == spread * y
    ensures x == y
  {
    Distribute(y, x, spread);
    if x > y { Product(x - y, spread); }
    if x < y { Product(y - x, spread); Distribute(x, y, spread); }
  }

  lemma DrawOf(base: real, spread: real, delay: real, draw: real)
    requires spread > 0.0 && base - spread <= delay < base + spread && draw == ((delay - base) / spread + 1.0) / 2.0
    ensures IsDraw(draw) && base + spread * (2.0 * draw - 1.0) == delay
  {
    var x := (delay - base) / spread;
    assert x * spread == delay - base;
    if x < -1.0 { Product(-1.0 - x, spread); Distribute(x, -1.0, spread); }
    if x >= 1.0 { Product(x - 1.0, spread); Distribute(1.0, x, spread); }
  }

  lemma JitterSpread(base: real, randomization: real, spread: real, x: real, draw: real)
    requires base >= 0.0 && -1.0 <= x <= 1.0 && (randomization > 0.0 ==> spread >= 0.0)
    requires spread == randomization * base && x == 2.0 * draw - 1.0
    ensures randomization >= 0.0 ==> base - spread <= Jittered(base, randomization, draw) <= base + spread
    ensures Jittered(base, randomization, draw) >= 0.0
  {
    if randomization > 0.0 { Within(spread, x); }
  }

  lemma Within(spread: real, x: real)
    requires spread >= 0.0 && -1.0 <= x <= 1.0
    ensures -spread <= Offset(spread, x) <= spread
  {
    Distribute(x, 1.0, spread);
    Product(1.0 - x, spread);
    Distribute(-1.0, x, spread);
    Product(x + 1.0, spread);
  }

  /** The undisturbed delays stay above `low`. */
  ghost predicate BackoffOk(b: Backoff, low: real) {
    && ValidOptions(b.options)
    && 0.0 <= low <= Min(b.options.initial, b.options.max) && (low > 0.0 ==> b.options.multiplier >= 1.0)
    && (b.current.Some? ==> b.current.value >= low)
  }

  lemma BaseAtLeast(b: Backoff, low: real)
    requires BackoffOk(b, low)
    ensures NextBase(b) >= low && BackoffOk(Advance(b), low)
  {
    if b.current.Some? { StepAtLeast(b.current.value, b.options.multiplier, b.options.max, low); }
  }

  lemma StepAtLeast(c: real, m: real, max: real, low: real)
    requires 0.0 <= low <= c && low <= max && m >= 0.0 && (low > 0.0 ==> m >= 1.0)
    ensures Capped(c, c * m, max) >= low
  {
    Grows(c, m);
  }

  lemma Grows(c: real, m: real)
    requires c >= 0.0 && m >= 0.0
    ensures c * m >= 0.0 && (m >= 1.0 ==> c * m >= c)
  {
    Product(c, m);
    if m >= 1.0 { Scale(1.0, m, c); }
  }

  lemma {:induction false} BackoffKept(h: Handler, events: seq<Event>, k: nat, low: real)
    requires k <= |events| && BackoffOk(h.backoff, low)
    ensures BackoffOk(HandlerAt(h, events, k).backoff, low)
    decreases k
  {
    if k > 0 {
      BackoffKept(h, events, k - 1, low);
      BaseAtLeast(HandlerAt(h, events, k - 1).backoff, low);
    }
  }

  /** The undisturbed delays of the throttle backoff. */
  ghost predicate ThrottleOk(b: Backoff) {
    b.options == THROTTLE && (b.current.Some? ==> 0.0 <= b.current.value <= THROTTLE.max)
  }

  lemma {:induction false} ThrottleKept(h: Handler, events: seq<Event>, k: nat)
    requires k <= |events| && ThrottleOk(h.throttle)
    ensures ThrottleOk(HandlerAt(h, events, k).throttle)
    decreases k
  {
    if k > 0 { ThrottleKept(h, events, k - 1); }
  }

  /** A throttled delay is at most 12 seconds. */
  lemma ThrottleCap(b: Backoff, draw: real, now: real)
    requires ThrottleOk(b) && IsDraw(draw)
    ensures Delay(b, draw, now).Some? && 0.0 <= Delay(b, draw, now).value <= 12.0
  {
    var base := NextBase(b);
    assert 0.0 <= base <= 10.0;
    JitterBounds(base, 0.2, draw);
    assert base * (1.0 + 0.2) <= 12.0;
  }

  /** The handler of a call that is just starting. */
  ghost predicate StartsWell(h: Handler) {
    exists info, now :: h == NewHandler(info, now) && ValidOptions(info.options)
  }

  /**
   With a budget, a call that is not a task poll is tried again only while the budget lasts: each
   retry is due within it, or within 12 seconds more if the server was throttling.
   */
  lemma RetriesWithinBudget(h: Handler, events: seq<Event>, delays: seq<real>, k: nat)
    requires StartsWell(h) && AllRetried(h, events, delays) && k < |events|
    requires h.callType != TaskLongPoll && h.backoff.options.budget.Some?
    ensures var due := events[k].now + delays[k] - h.backoff.startedAt;
            var budget := h.backoff.options.budget.value;
            due <= if events[k].error.code == ResourceExhausted then budget + 12.0 else budget
  {
    SettingsKept(h, events, k);
    ThrottleKept(h, events, k);
    BackoffKept(h, events, k, 0.0);
    assert Answered(h, events, k, delays[k]);
    DueWithin(HandlerAt(h, events, k), k + 1, events[k]);
  }

  /** An ordinary call waits for a delay of its backoff, or longer for one of the throttle. */
  lemma OrdinaryWait(h: Handler, attempt: nat, e: Event) returns (delay: real)
    requires h.callType != TaskLongPoll && Decide(h, attempt, e).Wait?
    requires Delay(h.throttle, e.throttleDraw, e.now).Some?
    ensures Delay(h.backoff, e.draw, e.now) == Some(delay)
    ensures Decide(h, attempt, e).delay ==
            if e.error.code == ResourceExhausted then Max(delay, Delay(h.throttle, e.throttleDraw, e.now).value)
            else delay
  {
    delay := Delay(h.backoff, e.draw, e.now).value;
  }

  lemma DelayInBudget(b: Backoff, draw: real, now: real)
    requires BackoffOk(b, 0.0) && IsDraw(draw) && Delay(b, draw, now).Some?
    ensures Delay(b, draw, now).value >= 0.0
    ensures b.options.budget.Some? ==> now - b.startedAt + Delay(b, draw, now).value <= b.options.budget.value
  {
    BaseAtLeast(b, 0.0);
    JitterBounds(NextBase(b), b.options.randomization, draw);
  }

  lemma DueWithin(h: Handler, attempt: nat, e: Event)
    requires h.callType != TaskLongPoll && Decide(h, attempt, e).Wait? && ValidEvent(e)
    requires BackoffOk(h.backoff, 0.0) && ThrottleOk(h.throttle) && h.backoff.options.budget.Some?
    ensures e.now + Decide(h, attempt, e).delay - h.backoff.startedAt
            <= h.backoff.options.budget.value + if e.error.code == ResourceExhausted then 12.0 else 0.0
  {
    ThrottleCap(h.throttle, e.throttleDraw, e.now);
    var delay := OrdinaryWait(h, attempt, e);
    DelayInBudget(h.backoff, e.draw, e.now);
  }

  /** Each attempt starts when the wait before it is over. */
  ghost predicate Waited(events: seq<Event>, delays: seq<real>, start: real)
    requires |delays| == |events|
  {
    && (events != [] ==> events[0].now >= start)
    && forall k :: 0 < k < |events| ==> WaitedBefore(events, delays, k)
  }

  ghost predicate WaitedBefore(events: seq<Event>, delays: seq<real>, k: nat) {
    0 < k < |events| && k <= |delays| && events[k].now >= events[k - 1].now + delays[k - 1]
  }

  /** The least delay there can be. */
  function LeastDelay(o: Options): real { Lowest(Min(o.initial, o.max), Max(o.randomization, 0.0)) }

  predicate Steady(o: Options) {
    o.initial > 0.0 && o.max > 0.0 && o.multiplier >= 1.0 && o.randomization < 1.0
  }

  lemma LowestGrows(x: real, y: real, randomization: real)
    requires x <= y && randomization < 1.0
    ensures Lowest(x, randomization) <= Lowest(y, randomization)
  {
    Sides(x, randomization);
    Sides(y, randomization);
    Scale(x, y, 1.0 - randomization);
  }

  lemma JitterAtLeast(low: real, base: real, randomization: real, draw: real)
    requires 0.0 <= low <= base && randomization < 1.0 && IsDraw(draw)
    ensures Jittered(base, randomization, draw) >= Lowest(low, Max(randomization, 0.0))
  {
    JitterBounds(base, randomization, draw);
    LowestGrows(low, base, Max(randomization, 0.0));
  }

  lemma DelayAtLeast(b: Backoff, draw: real, now: real)
    requires Steady(b.options) && BackoffOk(b, Min(b.options.initial, b.options.max)) && IsDraw(draw)
    requires Delay(b, draw, now).Some?
    ensures Delay(b, draw, now).value >= LeastDelay(b.options)
  {
    var low := Min(b.options.initial, b.options.max);
    BaseAtLeast(b, low);
    JitterAtLeast(low, NextBase(b), b.options.randomization, draw);
  }

  /** A call that is not a task poll waits at least for its backoff, within the budget. */
  lemma WaitsForBackoff(h: Handler, attempt: nat, e: Event)
    requires h.callType != TaskLongPoll && Decide(h, attempt, e).Wait?
    ensures var delay := Delay(h.backoff, e.draw, e.now);
            && delay.Some? && Decide(h, attempt, e).delay >= delay.value
            && (h.backoff.options.budget.Some? ==>
                  e.now - h.backoff.startedAt + delay.value <= h.backoff.options.budget.value)
  {
  }

  /** A wait is at least the least delay and begins early enough for the budget. */
  lemma OneWait(h: Handler, events: seq<Event>, k: nat, delay: real)
    requires StartsWell(h) && Answered(h, events, k, delay) && h.callType != TaskLongPoll
    requires Steady(h.backoff.options)
    ensures delay >= LeastDelay(h.backoff.options)
    ensures h.backoff.options.budget.Some? ==>
              events[k].now - h.backoff.startedAt + LeastDelay(h.backoff.options) <= h.backoff.options.budget.value
  {
    var o, e := h.backoff.options, events[k];
    SettingsKept(h, events, k);
    BackoffKept(h, events, k, Min(o.initial, o.max));
    var at := HandlerAt(h, events, k);
    WaitsForBackoff(at, k + 1, e);
    DelayAtLeast(at.backoff, e.draw, e.now);
  }

  /** The sum of `n` equal delays. */
  function Total(n: nat, d: real): real { if n == 0 then 0.0 else Total(n - 1, d) + d }

  lemma {:induction false} TotalIs(n: nat, d: real)
    ensures Total(n, d) == n as real * d
    decreases n
  {
    if n > 0 {
      TotalIs(n - 1, d);
      Distribute(1.0, n as real, d);
    }
  }

  /** Waits that follow each other add up. */
  lemma {:induction false} WaitsAddUp(events: seq<Event>, delays: seq<real>, start: real, d: real, k: nat)
    requires |delays| == |events| && Waited(events, delays, start) && k < |events|
    requires forall j :: 0 <= j < |delays| ==> delays[j] >= d
    ensures events[k].now - start >= Total(k, d)
    decreases k
  {
    if k > 0 {
      WaitsAddUp(events, delays, start, d, k - 1);
      assert WaitedBefore(events, delays, k);
    }
  }

  lemma AddedUp(events: seq<Event>, delays: seq<real>, start: real, d: real, budget: real)
    requires |delays| == |events| && Waited(events, delays, start) && events != []
    requires forall j :: 0 <= j < |delays| ==> delays[j] >= d
    requires events[|events| - 1].now - start + d <= budget
    ensures Total(|events|, d) <= budget
  {
    WaitsAddUp(events, delays, start, d, |events| - 1);
  }

  lemma AllLong(h: Handler, events: seq<Event>, delays: seq<real>, d: real)
    requires StartsWell(h) && AllRetried(h, events, delays) && h.callType != TaskLongPoll
    requires Steady(h.backoff.options) && d == LeastDelay(h.backoff.options)
    ensures forall k :: 0 <= k < |delays| ==> delays[k] >= d
    ensures events != [] && h.backoff.options.budget.Some? ==>
              events[|events| - 1].now - h.backoff.startedAt + d <= h.backoff.options.budget.value
  {
    forall k | 0 <= k < |events|
      ensures delays[k] >= d
      ensures h.backoff.options.budget.Some? ==>
                events[k].now - h.backoff.startedAt + d <= h.backoff.options.budget.value
    {
      assert Answered(h, events, k, delays[k]);
      OneWait(h, events, k, delays[k]);
    }
  }

  /** Even without a limit on attempts, a budget bounds the number of retries. */
  lemma RetriesAreBounded(h: Handler, events: seq<Event>, delays: seq<real>)
    requires StartsWell(h) && AllRetried(h, events, delays) && Waited(events, delays, h.backoff.startedAt)
    requires h.callType != TaskLongPoll && h.backoff.options.budget.Some? && Steady(h.backoff.options)
    ensures LeastDelay(h.backoff.options) > 0.0
    ensures |events| as real * LeastDelay(h.backoff.options) <= h.backoff.options.budget.value
  {
    var d := LeastDelay(h.backoff.options);
    LeastDelayPositive(h.backoff.options);
    AllLong(h, events, delays, d);
    if events != [] { AddedUp(events, delays, h.backoff.startedAt, d, h.backoff.options.budget.value); }
    TotalIs(|events|, d);
  }

  lemma LowestPositive(low: real, randomization: real)
    requires low > 0.0 && randomization < 1.0
    ensures Lowest(low, randomization) > 0.0
  {
    Sides(low, randomization);
    Product(1.0 - randomization, low);
  }

  lemma LeastDelayPositive(o: Options)
    requires Steady(o)
    ensures LeastDelay(o) > 0.0
  {
    LowestPositive(Min(o.initial, o.max), Max(o.randomization, 0.0));
  }

  // ----- the delays of a run -----

  /** The initial interval, multiplied `n` times and never capped. */
  function Uncapped(initial: real, multiplier: real, n: nat): real
    decreases n
  {
    if n == 0 then initial else Uncapped(initial, multiplier, n - 1) * multiplier
  }

  /** The delay number `n` of an exponential backoff. */
  function Nth(o: Options, n: nat): real
    decreases n
  {
    if n == 0 then o.initial else Capped(Nth(o, n - 1), Nth(o, n - 1) * o.multiplier, o.max)
  }

  function Progress(o: Options, n: nat): Option<real> { if n == 0 then None else Some(Nth(o, n - 1)) }

  lemma AdvanceProgress(b: Backoff, n: nat)
    requires b.current == Progress(b.options, n)
    ensures NextBase(b) == Nth(b.options, n) && Advance(b).current == Progress(b.options, n + 1)
  {
  }

  lemma GrowStep(x: real, c: real, m: real, max: real)
    requires x >= 0.0 && m >= 1.0 && c == Min(x, max)
    ensures Capped(c, c * m, max) == Min(x * m, max)
  {
    Grows(x, m);
  }

  lemma ShrinkStep(c: real, m: real, max: real)
    requires 0.0 <= c < max && 0.0 <= m < 1.0
    ensures Capped(c, c * m, max) == c * m && c * m < max
  {
    Scale(m, 1.0, c);
  }

  lemma CapStep(x: real, c: real, m: real, max: real)
    requires x >= 0.0 && m >= 0.0 && c == Min(x, max) && (m < 1.0 ==> x < max)
    ensures x * m >= 0.0 && Capped(c, c * m, max) == Min(x * m, max) && (m < 1.0 ==> x * m < max)
  {
    Product(x, m);
    if m >= 1.0 { GrowStep(x, c, m, max); } else { ShrinkStep(x, m, max); }
  }

  /** What the sequence is before and after the cap. */
  ghost predicate NthIsCapped(o: Options, n: nat, x: real) {
    x >= 0.0 && Nth(o, n) == Min(x, o.max) && (o.multiplier < 1.0 ==> x < o.max)
  }

  lemma NthStep(o: Options, n: nat, x: real)
    requires n > 0 && o.multiplier >= 0.0 && NthIsCapped(o, n - 1, x)
    ensures NthIsCapped(o, n, x * o.multiplier)
  {
    CapStep(x, Nth(o, n - 1), o.multiplier, o.max);
  }

  lemma {:induction false} NthBelow(o: Options, n: nat) returns (x: real)
    requires ValidOptions(o) && o.initial < o.max
    ensures x == Uncapped(o.initial, o.multiplier, n) && NthIsCapped(o, n, x)
    decreases n
  {
    if n == 0 {
      x := o.initial;
    } else {
      var y := NthBelow(o, n - 1);
      NthStep(o, n, y);
      x := y * o.multiplier;
    }
  }

  lemma {:induction false} NthAbove(o: Options, n: nat)
    requires o.initial >= o.max && n > 0
    ensures Nth(o, n) == o.max
    decreases n
  {
    if n > 1 { NthAbove(o, n - 1); }
  }

  /**
   It is the initial interval multiplied `n` times, capped at the maximum interval. An initial
   interval that is not below the maximum is used once; from then on it is the maximum, whatever the
   multiplier.
   */
  lemma NthIs(o: Options, n: nat)
    requires ValidOptions(o)
    ensures Nth(o, n) ==
            if n == 0 then o.initial
            else if o.initial < o.max then Min(Uncapped(o.initial, o.multiplier, n), o.max)
            else o.max
  {
    if o.initial < o.max { var x := NthBelow(o, n); } else if n > 0 { NthAbove(o, n); }
  }

  function Power(n: nat): real
    decreases n
  {
    if n == 0 then 1.0 else 2.0 * Power(n - 1)
  }

  lemma {:induction false} Doubled(initial: real, n: nat)
    ensures Uncapped(initial, 2.0, n) == initial * Power(n)
    decreases n
  {
    if n > 0 { Doubled(initial, n - 1); }
  }

  /** Task polls wait for a fifth of a second first, throttled calls for a second; both double up to 10 seconds. */
  lemma PolicyDelays(n: nat)
    ensures Nth(TASK_POLL, n) == Min(0.2 * Power(n), 10.0) && Nth(THROTTLE, n) == Min(Power(n), 10.0)
    ensures TASK_POLL.randomization == THROTTLE.randomization == 0.2
    ensures TASK_POLL.budget == THROTTLE.budget == None && TASK_POLL.maxRetries == 0
  {
    NthIs(TASK_POLL, n);
    NthIs(THROTTLE, n);
    Doubled(0.2, n);
    Doubled(1.0, n);
  }

  function Exhausted(events: seq<Event>, k: nat): nat
    requires k <= |events|
    decreases k
  {
    if k == 0 then 0 else Exhausted(events, k - 1) + if events[k - 1].error.code == ResourceExhausted then 1 else 0
  }

  /**
   The errors that are retried with a backoff: all but those that say that the call itself is wrong
   or was stopped. A poll for tasks is not stopped by a cancellation or a deadline, and no call by a
   cancellation that comes from the connection.
   */
  predicate BacksOff(poll: bool, e: Status) {
    && e.code !in {OkCode, InvalidArgument, NotFound, AlreadyExists, PermissionDenied, FailedPrecondition,
                   Unimplemented, Unauthenticated}
    && (e.code == Cancelled ==> poll || e.transport)
    && (e.code == DeadlineExceeded ==> poll)
  }

  lemma RetryableIff(h: Handler, e: Status)
    ensures IsRetryable(h, e) <==> BacksOff(IsPoll(h), e)
  {
  }

  /** The server says that the message was larger than allowed. */
  ghost predicate SaysTooLarge(e: Status) {
    && e.code == ResourceExhausted
    && exists rest :: || e.message == "grpc: received message larger than max" + rest
                      || e.message == "grpc: message after decompression larger than max" + rest
                      || e.message == "grpc: received message after decompression larger than max" + rest
  }

  lemma PrefixIff(s: string, prefix: string)
    ensures StartsWith(s, prefix) <==> exists rest :: s == prefix + rest
  {
    if StartsWith(s, prefix) { assert s == prefix + s[|prefix|..]; }
  }

  lemma TooLargeIff(e: Status)
    ensures IsTooLarge(e) <==> SaysTooLarge(e)
  {
    PrefixIff(e.message, "grpc: received message larger than max");
    PrefixIff(e.message, "grpc: message after decompression larger than max");
    PrefixIff(e.message, "grpc: received message after decompression larger than max");
  }

  /** How many of the first `k` errors were of that kind. */
  function BackedOff(poll: bool, events: seq<Event>, k: nat): nat
    requires k <= |events|
    decreases k
  {
    if k == 0 then 0 else BackedOff(poll, events, k - 1) + if BacksOff(poll, events[k - 1].error) then 1 else 0
  }

  predicate IsPoll(h: Handler) { h.callType == TaskLongPoll }

  lemma WaitsAdvance(h: Handler, attempt: nat, e: Event)
    requires Decide(h, attempt, e).Wait?
    ensures After(h, attempt, e) ==
            if e.error.code == ResourceExhausted then h.(backoff := Advance(h.backoff), throttle := Advance(h.throttle))
            else if BacksOff(IsPoll(h), e.error) then h.(backoff := Advance(h.backoff))
            else h
  {
    RetryableIff(h, e.error);
  }

  lemma ProgressStep(h: Handler, attempt: nat, e: Event, n: nat, m: nat)
    requires Decide(h, attempt, e).Wait? && h.throttle.options == THROTTLE
    requires h.backoff.current == Progress(h.backoff.options, n) && h.throttle.current == Progress(THROTTLE, m)
    ensures var after := After(h, attempt, e);
            && after.backoff.current == Progress(h.backoff.options, if BacksOff(IsPoll(h), e.error) then n + 1 else n)
            && after.throttle.current == Progress(THROTTLE, if e.error.code == ResourceExhausted then m + 1 else m)
  {
    WaitsAdvance(h, attempt, e);
    AdvanceProgress(h.backoff, n);
    AdvanceProgress(h.throttle, m);
  }

  /** The backoff has given `n` delays and the throttle `m`. */
  predicate ProgressIs(h: Handler, at: Handler, n: nat, m: nat) {
    at.backoff.current == Progress(h.backoff.options, n) && at.throttle.current == Progress(THROTTLE, m)
  }

  lemma ProgressNext(h: Handler, events: seq<Event>, k: nat, n: nat, m: nat)
    requires k < |events| && h.throttle.options == THROTTLE && PolicyAt(h, events, k).Wait?
    requires ProgressIs(h, HandlerAt(h, events, k), n, m)
    ensures var e := events[k].error;
            ProgressIs(h, HandlerAt(h, events, k + 1), if BacksOff(IsPoll(h), e) then n + 1 else n,
                       if e.code == ResourceExhausted then m + 1 else m)
  {
    SettingsKept(h, events, k);
    ProgressStep(HandlerAt(h, events, k), k + 1, events[k], n, m);
  }

  /** Neither backoff has given a delay yet. */
  predicate Unused(h: Handler) {
    h.backoff.current.None? && h.throttle.current.None? && h.throttle.options == THROTTLE
  }

  lemma CountsNext(poll: bool, events: seq<Event>, k: nat, n: nat, m: nat)
    requires k < |events| && n == BackedOff(poll, events, k) && m == Exhausted(events, k)
    ensures BackedOff(poll, events, k + 1) == if BacksOff(poll, events[k].error) then n + 1 else n
    ensures Exhausted(events, k + 1) == if events[k].error.code == ResourceExhausted then m + 1 else m
  {
  }

  lemma WaitsAt(h: Handler, events: seq<Event>, delays: seq<real>, k: nat)
    requires AllRetried(h, events, delays) && k < |events|
    ensures PolicyAt(h, events, k).Wait?
  {
    assert Answered(h, events, k, delays[k]);
  }

  /** Every backoff takes the next delay, every throttled one also the next delay of the throttle. */
  lemma {:induction false} ProgressAt(h: Handler, events: seq<Event>, delays: seq<real>, k: nat)
    requires Unused(h) && AllRetried(h, events, delays) && k <= |events|
    ensures ProgressIs(h, HandlerAt(h, events, k), BackedOff(IsPoll(h), events, k), Exhausted(events, k))
    decreases k
  {
    if k > 0 {
      var j := k - 1;
      ProgressAt(h, events, delays, j);
      var n, m := BackedOff(IsPoll(h), events, j), Exhausted(events, j);
      WaitsAt(h, events, delays, j);
      ProgressNext(h, events, j, n, m);
      CountsNext(IsPoll(h), events, j, n, m);
    }
  }

  lemma OnlyBackoffs(h: Handler, attempt: nat, e: Event)
    requires !IsPoll(h) && Decide(h, attempt, e).Wait?
    ensures BacksOff(false, e.error)
  {
  }

  lemma BacksOffAt(h: Handler, events: seq<Event>, delays: seq<real>, k: nat)
    requires AllRetried(h, events, delays) && k < |events| && !IsPoll(h)
    ensures BacksOff(false, events[k].error)
  {
    SettingsKept(h, events, k);
    WaitsAt(h, events, delays, k);
    OnlyBackoffs(HandlerAt(h, events, k), k + 1, events[k]);
  }

  /** An ordinary call backs off at every retry. */
  lemma {:induction false} AllBackedOff(h: Handler, events: seq<Event>, delays: seq<real>, k: nat)
    requires AllRetried(h, events, delays) && k <= |events| && !IsPoll(h)
    ensures BackedOff(false, events, k) == k
    decreases k
  {
    if k > 0 {
      AllBackedOff(h, events, delays, k - 1);
      BacksOffAt(h, events, delays, k - 1);
    }
  }

  /**
   Exactly which delay each retry waits for: the next of the backoff, after ResourceExhausted at
   least the next of the throttle, and the maximum interval where a poll goes on all the same.
   */
  lemma DelaysAre(h: Handler, events: seq<Event>, delays: seq<real>, k: nat)
    requires StartsWell(h) && AllRetried(h, events, delays) && k < |events|
    ensures var o, e, n := h.backoff.options, events[k], BackedOff(IsPoll(h), events, k);
            && (!IsPoll(h) ==> n == k)
            && var delay := Jittered(Nth(o, n), o.randomization, e.draw);
               delays[k] ==
               if e.error.code == ResourceExhausted then
                 Max(delay, Jittered(Nth(THROTTLE, Exhausted(events, k)), THROTTLE.randomization, e.throttleDraw))
               else if BacksOff(IsPoll(h), e.error) then delay
               else o.max
  {
    var at := HandlerAt(h, events, k);
    ProgressAt(h, events, delays, k);
    SettingsKept(h, events, k);
    assert Answered(h, events, k, delays[k]);
    AdvanceProgress(at.backoff, BackedOff(IsPoll(h), events, k));
    AdvanceProgress(at.throttle, Exhausted(events, k));
    WaitIs(at, k + 1, events[k]);
    if !IsPoll(h) { AllBackedOff(h, events, delays, k); }
  }

  lemma WaitIs(h: Handler, attempt: nat, e: Event)
    requires Decide(h, attempt, e).Wait? && h.throttle.options == THROTTLE
    ensures var delay := Jittered(NextBase(h.backoff), h.backoff.options.randomization, e.draw);
            Decide(h, attempt, e).delay ==
            if e.error.code == ResourceExhausted then
              Max(delay, Jittered(NextBase(h.throttle), THROTTLE.randomization, e.throttleDraw))
            else if BacksOff(IsPoll(h), e.error) then delay
            else h.maxInterval
  {
  }

  /** After ResourceExhausted the longer of two delays counts; a throttle that has no delay left adds nothing. */
  lemma LongerWait(h: Handler, attempt: nat, e: Event)
    requires Decide(h, attempt, e).Wait? && e.error.code == ResourceExhausted
    requires BackoffOk(h.backoff, 0.0) && ValidEvent(e)
    ensures var delay, throttled := Delay(h.backoff, e.draw, e.now), Delay(h.throttle, e.throttleDraw, e.now);
            var waited := Decide(h, attempt, e).delay;
            && delay.Some? && delay.value <= waited
            && (throttled.Some? ==> throttled.value <= waited)
            && (delay == Some(waited) || throttled == Some(waited))
  {
    BaseAtLeast(h.backoff, 0.0);
    JitterBounds(NextBase(h.backoff), h.backoff.options.randomization, e.draw);
  }

  // ----- when a call is given up -----

  /** What becomes of an error that comes after errors that were all retried. */
  function NextPolicy(h: Handler, before: seq<Event>, e: Event): Policy {
    Decide(HandlerAt(h, before, |before|), |before| + 1, e)
  }

  /** A worker polls for tasks, and the call is not also marked as a user's long poll. */
  predicate PollsForTasks(request: Option<Extensions>) {
    request.Some? && request.value.taskPoll && !request.value.userPoll
  }

  /** The options of the call itself, or those for task polls, or those of the client. */
  function CallOptions(defaults: Options, request: Option<Extensions>): Options {
    if request.Some? && request.value.override.Some? then request.value.override.value
    else if PollsForTasks(request) then TASK_POLL
    else defaults
  }

  predicate StopsOn(request: Option<Extensions>, e: Status) {
    request.Some? && request.value.noRetryOn.Some? && request.value.noRetryOn.value(e)
  }

  lemma ForwardIff(h: Handler, attempt: nat, e: Event)
    ensures Decide(h, attempt, e).Forward? <==>
            || 0 < h.maxRetries <= attempt || ShortCircuits(h, e.error) || IsTooLarge(e.error)
            || if IsRetryable(h, e.error) then Delay(h.backoff, e.draw, e.now).None?
               else h.callType != TaskLongPoll || e.now - h.startedAt > FATAL_GRACE
  {
  }

  /**
   From the request to the end of the call, whatever kind of call it is: after errors that were all
   retried, it is given up exactly if it has no attempts left, if the caller or the size of the
   message says so, if the next delay of the backoff would not end within the budget, or if the
   error is none that is retried, unless it meets a poll within its first minute.
   */
  lemma CallGivesUpIff(defaults: Options, request: Option<Extensions>, start: real, before: seq<Event>,
                       delays: seq<real>, e: Event)
    requires ValidOptions(CallOptions(defaults, request))
    requires AllRetried(NewHandler(GetCallInfo(defaults, request), start), before, delays)
    ensures var h, o, poll := NewHandler(GetCallInfo(defaults, request), start), CallOptions(defaults, request),
                              PollsForTasks(request);
            var n := BackedOff(poll, before, |before|);
            && (!poll ==> n == |before|)
            && (NextPolicy(h, before, e).Forward? <==>
                || 0 < o.maxRetries <= |before| + 1 || StopsOn(request, e.error) || SaysTooLarge(e.error)
                || if BacksOff(poll, e.error) then
                     o.budget.Some? && e.now - start + Jittered(Nth(o, n), o.randomization, e.draw) > o.budget.value
                   else !poll || e.now - start > 60.0)
  {
    var info := GetCallInfo(defaults, request);
    var h, k := NewHandler(info, start), |before|;
    assert info.options == CallOptions(defaults, request) && (IsPoll(h) <==> PollsForTasks(request));
    assert StartsWell(h);
    ProgressAt(h, before, delays, k);
    SettingsKept(h, before, k);
    AdvanceProgress(HandlerAt(h, before, k).backoff, BackedOff(IsPoll(h), before, k));
    if !IsPoll(h) { AllBackedOff(h, before, delays, k); }
    TooLargeIff(e.error);
    RetryableIff(HandlerAt(h, before, k), e.error);
    ForwardIff(HandlerAt(h, before, k), k + 1, e);
  }

  lemma ForwardedIs(h: Handler, attempt: nat, e: Event)
    requires Decide(h, attempt, e).Forward?
    ensures var left := !(0 < h.maxRetries <= attempt);
            var marks := if left && ShortCircuits(h, e.error) then {ShortCircuited}
                         else if left && IsTooLarge(e.error) then {TooLarge} else {};
            Decide(h, attempt, e).error == e.error.(markers := e.error.markers + marks)
  {
    assert e.error.markers + {} == e.error.markers;
  }

  /**
   A call that is given up reports its last error. Where attempts were left, it is marked with the
   reason: that the caller stopped it, or else that the message was too large.
   */
  lemma CallReports(defaults: Options, request: Option<Extensions>, start: real, before: seq<Event>,
                    delays: seq<real>, e: Event)
    requires AllRetried(NewHandler(GetCallInfo(defaults, request), start), before, delays)
    requires NextPolicy(NewHandler(GetCallInfo(defaults, request), start), before, e).Forward?
    ensures var error := NextPolicy(NewHandler(GetCallInfo(defaults, request), start), before, e).error;
            var left := !(0 < CallOptions(defaults, request).maxRetries <= |before| + 1);
            && error.(markers := {}) == e.error.(markers := {})
            && error.markers - e.error.markers <= {ShortCircuited, TooLarge} && e.error.markers <= error.markers
            && (ShortCircuited in error.markers <==>
                ShortCircuited in e.error.markers || (left && StopsOn(request, e.error)))
            && (TooLarge in error.markers <==>
                TooLarge in e.error.markers || (left && !StopsOn(request, e.error) && SaysTooLarge(e.error)))
  {
    var info := GetCallInfo(defaults, request);
    var h, k := NewHandler(info, start), |before|;
    assert info.options == CallOptions(defaults, request);
    SettingsKept(h, before, k);
    TooLargeIff(e.error);
    ForwardedIs(HandlerAt(h, before, k), k + 1, e);
  }

  // ----- task polls -----

  /** A worker's task poll: no override for the call, and not also a user's long poll. */
  predicate IsTaskPoll(request: Option<Extensions>) {
    PollsForTasks(request) && request.value.override.None?
  }

  /**
   A task poll is given up exactly if its errors are short-circuited or too large, or are none that
   can be retried and come after the first minute; whatever happened before.
   */
  lemma TaskPollGivesUpIff(defaults: Options, request: Option<Extensions>, start: real, events: seq<Event>, k: nat)
    requires IsTaskPoll(request) && k < |events|
    ensures var h := NewHandler(GetCallInfo(defaults, request), start);
            var e := events[k].error;
            PolicyAt(h, events, k).Forward? <==>
            || StopsOn(request, e) || SaysTooLarge(e)
            || (!BacksOff(true, e) && events[k].now - start > 60.0)
  {
    var h := NewHandler(GetCallInfo(defaults, request), start);
    SettingsKept(h, events, k);
    TooLargeIff(events[k].error);
    RetryableIff(HandlerAt(h, events, k), events[k].error);
    ForwardIff(HandlerAt(h, events, k), k + 1, events[k]);
  }
}
