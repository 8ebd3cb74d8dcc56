/**
 Lists that are read page by page: the streams of workflows and of schedules
 (crates/client/src/lib.rs and crates/client/src/schedules.rs).
 */
module Pagination {
  import opened Common

  type Token = seq<nat>

  /** What a request for a page is answered with; `decodes` is false if the payloads of an item cannot be decoded. */
  datatype Reply<T> =
    | Page(items: seq<T>, next: Token, decodes: bool)
    | Failed

  /** The server's answer to each call, which may depend on anything. */
  type Server<!T> = (nat, Token) -> Reply<T>

  /** What the stream yields. */
  datatype Out<T> = Item(value: T) | Error

  datatype State<T> = State(token: Token, buffer: seq<T>, yielded: nat, exhausted: bool, calls: nat)

  function Start<T>(): State<T> { State([], [], 0, false, 0) }

  datatype Step<T> = Step(out: Option<Out<T>>, state: State<T>)

  predicate LimitMet<T>(limit: Option<nat>, s: State<T>) { limit.Some? && s.yielded >= limit.value }

  /** The first item of a page just received. */
  function TakePage<T>(s: State<T>, items: seq<T>, next: Token): Step<T> {
    if items == [] then Step(None, s.(calls := s.calls + 1))
    else Step(Some(Item(items[0])), State(next, items[1..], s.yielded + 1, next == [], s.calls + 1))
  }

  /** One step of `list_workflows`. */
  function Next<T>(server: Server<T>, limit: Option<nat>, s: State<T>): Step<T> {
    if LimitMet(limit, s) then Step(None, s)
    else if s.buffer != [] then
      Step(Some(Item(s.buffer[0])), s.(buffer := s.buffer[1..], yielded := s.yielded + 1))
    else if s.exhausted then Step(None, s)
    else
      match server(s.calls, s.token)
      case Failed => Step(Some(Error), s.(exhausted := true, calls := s.calls + 1))
      case Page(items, next, decodes) =>
        if decodes then TakePage(s, items, next)
        else Step(Some(Error), s.(token := next, exhausted := true, calls := s.calls + 1))
  }

  /** What the first `n` polls of the stream yield. */
  function Outputs<T>(server: Server<T>, limit: Option<nat>, s: State<T>, n: nat): seq<Out<T>>
    decreases n
  {
    if n == 0 then []
    else
      var step := Next(server, limit, s);
      if step.out.None? then [] else [step.out.value] + Outputs(server, limit, step.state, n - 1)
  }

  /** `list_workflows` as it updates its state. */
  class WorkflowStream<T> {
    const server: Server<T>
    const limit: Option<nat>
    var token: Token
    var buffer: seq<T>
    var yielded: nat
    var exhausted: bool
    var calls: nat

    function Model(): State<T>
      reads this
    {
      State(token, buffer, yielded, exhausted, calls)
    }

    constructor (server: Server<T>, limit: Option<nat>)
      ensures Model() == Start() && this.server == server && this.limit == limit
    {
      this.server, this.limit := server, limit;
      token, buffer, yielded, exhausted, calls := [], [], 0, false, 0;
    }

    method PollNext() returns (out: Option<Out<T>>)
      modifies this
      ensures Step(out, Model()) == Next(server, limit, old(Model()))
    {
      if limit.Some? && yielded >= limit.value { return None; }
      if buffer != [] {
        out := Some(Item(buffer[0]));
        buffer := buffer[1..];
        yielded := yielded + 1;
        return;
      }
      if exhausted { return None; }
      var reply := server(calls, token);
      calls := calls + 1;
      if reply.Failed? {
        exhausted := true;
        return Some(Error);
      }
      if !reply.decodes {
        token, exhausted := reply.next, true;
        return Some(Error);
      }
      if reply.items == [] { return None; }
      token, exhausted := reply.next, reply.next == [];
      buffer := reply.items[1..];
      yielded := yielded + 1;
      out := Some(Item(reply.items[0]));
    }
  }

  // ----- the pages one after the other -----

  function Items<T>(items: seq<T>): seq<Out<T>> {
    seq(|items|, i requires 0 <= i < |items| => Item(items[i]))
  }

  /** What up to `pages` pages hold, up to the last page, the first empty page or the first error. */
  function Concatenated<T>(server: Server<T>, call: nat, token: Token, pages: nat): seq<Out<T>>
    decreases pages
  {
    if pages == 0 then []
    else
      match server(call, token)
      case Failed => [Error]
      case Page(items, next, decodes) =>
        if !decodes then [Error]
        else if items == [] then []
        else if next == [] then Items(items)
        else Items(items) + Concatenated(server, call + 1, next, pages - 1)
  }

  /** What is still to come in a state. */
  function Remaining<T>(server: Server<T>, s: State<T>, pages: nat): seq<Out<T>> {
    if s.exhausted then Items(s.buffer)
    else Items(s.buffer) + Concatenated(server, s.calls, s.token, pages)
  }

  function Take<T>(s: seq<T>, n: nat): seq<T> { if n < |s| then s[..n] else s }

  /** The part of a sequence that the limit still allows. */
  function Allowed<T>(outs: seq<Out<T>>, limit: Option<nat>, yielded: nat): seq<Out<T>> {
    if limit.None? then outs else Take(outs, if yielded < limit.value then limit.value - yielded else 0)
  }

  /** More pages only add at the end, and `pages` pages are enough for that many items. */
  lemma {:induction false} EnoughPages<T>(server: Server<T>, call: nat, token: Token, pages: nat)
    ensures Take(Concatenated(server, call, token, pages), pages) ==
            Take(Concatenated(server, call, token, pages + 1), pages)
    decreases pages
  {
    if pages > 0 {
      var reply := server(call, token);
      if reply.Page? && reply.decodes && reply.items != [] && reply.next != [] {
        EnoughPages(server, call + 1, reply.next, pages - 1);
        var a, b := Concatenated(server, call + 1, reply.next, pages - 1), Concatenated(server, call + 1,
            reply.next, pages);
        TakeAfter(Items(reply.items), a, b, pages - 1);
      }
    }
  }

  lemma TakeAfter<T>(front: seq<T>, a: seq<T>, b: seq<T>, n: nat)
    requires front != [] && Take(a, n) == Take(b, n)
    ensures Take(front + a, n + 1) == Take(front + b, n + 1)
  {
    var m := n + 1 - |front|;
    if 0 <= m {
      TakeLess(a, m, n);
      TakeLess(b, m, n);
      assert Take(front + a, n + 1) == front + Take(a, m);
      assert Take(front + b, n + 1) == front + Take(b, m);
    } else {
      assert (front + a)[..n + 1] == front[..n + 1] == (front + b)[..n + 1];
    }
  }

  lemma TakeLess<T>(s: seq<T>, m: nat, n: nat)
    requires m <= n
    ensures Take(Take(s, n), m) == Take(s, m)
  {
  }

  lemma {:induction false} EnoughRemaining<T>(server: Server<T>, s: State<T>, n: nat)
    ensures Take(Remaining(server, s, n), n) == Take(Remaining(server, s, n + 1), n)
  {
    if !s.exhausted {
      var front := Items(s.buffer);
      var a, b := Concatenated(server, s.calls, s.token, n), Concatenated(server, s.calls, s.token, n + 1);
      EnoughPages(server, s.calls, s.token, n);
      if front == [] {
        assert front + a == a && front + b == b;
      } else {
        TakeAfter(front, a, b, n);
        TakeLess(front + a, n, n + 1);
        TakeLess(front + b, n, n + 1);
      }
    }
  }

  // ----- the stream yields the pages -----

  lemma ItemsFirst<T>(items: seq<T>)
    requires items != []
    ensures Items(items) == [Item(items[0])] + Items(items[1..])
  {
  }

  /** A step that yields nothing has nothing left to yield. */
  lemma StopsAtEnd<T>(server: Server<T>, limit: Option<nat>, s: State<T>, pages: nat)
    requires pages > 0 && Next(server, limit, s).out.None?
    ensures Allowed(Remaining(server, s, pages), limit, s.yielded) == []
    ensures Next(server, limit, s).state.calls == s.calls + if LimitMet(limit, s) || s.exhausted then 0 else 1
  {
  }

  /** A step that yields takes the first of what remains, and asks for a page exactly if none is buffered. */
  lemma TakesFirst<T>(server: Server<T>, limit: Option<nat>, s: State<T>, pages: nat)
    requires pages > 0 && Next(server, limit, s).out.Some?
    ensures var step := Next(server, limit, s);
            && !LimitMet(limit, s)
            && Remaining(server, s, pages) == [step.out.value] + Remaining(server, step.state,
                pages - (step.state.calls - s.calls))
            && step.state.calls == s.calls + (if s.buffer == [] then 1 else 0)
            && (if step.out.value.Item? then step.state.yielded == s.yielded + 1
                else Remaining(server, step.state, pages) == [] && Remaining(server, step.state, pages - 1) == [])
  {
    var step := Next(server, limit, s);
    if s.buffer != [] {
      ItemsFirst(s.buffer);
      assert [Item(s.buffer[0])] + Items(s.buffer[1..]) + Concatenated(server, s.calls, s.token, pages)
          == [Item(s.buffer[0])] + (Items(s.buffer[1..]) + Concatenated(server, s.calls, s.token, pages));
    } else {
      var reply := server(s.calls, s.token);
      assert Items(s.buffer) == [];
      if reply.Page? && reply.decodes && reply.items != [] { ItemsFirst(reply.items); }
    }
  }

  lemma TakeFirst<T>(x: T, rest: seq<T>, n: nat)
    requires n > 0
    ensures Take([x] + rest, n) == [x] + Take(rest, n - 1)
  {
  }

  lemma TakeTwice<T>(s: seq<T>, m: nat, n: nat)
    ensures Take(Take(s, m), n) == Take(Take(s, n), m)
  {
  }

  lemma AllowedTake<T>(a: seq<Out<T>>, b: seq<Out<T>>, limit: Option<nat>, yielded: nat, n: nat)
    requires Take(a, n) == Take(b, n)
    ensures Take(Allowed(a, limit, yielded), n) == Take(Allowed(b, limit, yielded), n)
  {
    if limit.Some? {
      var m := if yielded < limit.value then limit.value - yielded else 0;
      TakeTwice(a, m, n);
      TakeTwice(b, m, n);
    }
  }

  lemma AllowedFirst<T>(x: Out<T>, rest: seq<Out<T>>, limit: Option<nat>, yielded: nat)
    requires limit.None? || yielded < limit.value
    ensures Allowed([x] + rest, limit, yielded) == [x] + Allowed(rest, limit, yielded + 1)
  {
    if limit.Some? { TakeFirst(x, rest, limit.value - yielded); }
  }

  lemma OneFirst<T>(x: Out<T>, rest: seq<Out<T>>, more: seq<Out<T>>, limit: Option<nat>, yielded: nat, n: nat)
    requires n > 0 && (limit.None? || yielded < limit.value) && Take(rest, n - 1) == Take(more, n - 1)
    ensures Take(Allowed([x] + rest, limit, yielded), n) == [x] + Take(Allowed(more, limit, yielded + 1), n - 1)
  {
    AllowedFirst(x, rest, limit, yielded);
    TakeFirst(x, Allowed(rest, limit, yielded + 1), n);
    AllowedTake(rest, more, limit, yielded + 1, n - 1);
  }

  lemma NothingAllowed<T>(limit: Option<nat>, yielded: nat)
    ensures Allowed<T>([], limit, yielded) == [] && Allowed<T>([], limit, yielded + 1) == []
  {
  }

  lemma RestIs<T>(server: Server<T>, limit: Option<nat>, s: State<T>, x: Out<T>, next: State<T>, n: nat)
    returns (rest: seq<Out<T>>)
    requires n > 0 && Next(server, limit, s) == Step(Some(x), next)
    ensures Remaining(server, s, n) == [x] + rest && Take(rest, n - 1) == Take(Remaining(server, next, n - 1), n - 1)
  {
    TakesFirst(server, limit, s, n);
    var m := n - (next.calls - s.calls);
    rest := Remaining(server, next, m);
    SameStart(server, next, m, n);
  }

  lemma SameStart<T>(server: Server<T>, s: State<T>, m: nat, n: nat)
    requires n > 0 && n - 1 <= m <= n
    ensures Take(Remaining(server, s, m), n - 1) == Take(Remaining(server, s, n - 1), n - 1)
  {
    EnoughRemaining(server, s, n - 1);
  }

  lemma OneStep<T>(server: Server<T>, limit: Option<nat>, s: State<T>, x: Out<T>, next: State<T>, n: nat)
    requires n > 0 && Next(server, limit, s) == Step(Some(x), next)
    ensures Take(Allowed(Remaining(server, s, n), limit, s.yielded), n)
            == [x] + Take(Allowed(Remaining(server, next, n - 1), limit, next.yielded), n - 1)
  {
    var rest := RestIs(server, limit, s, x, next, n);
    OneFirst(x, rest, Remaining(server, next, n - 1), limit, s.yielded, n);
    TakesFirst(server, limit, s, n);
    if x.Error? { NothingAllowed<T>(limit, s.yielded); }
  }

  lemma OutputsNext<T>(server: Server<T>, limit: Option<nat>, s: State<T>, x: Out<T>, next: State<T>, n: nat)
    requires n > 0 && Next(server, limit, s) == Step(Some(x), next)
    ensures Outputs(server, limit, s, n) == [x] + Outputs(server, limit, next, n - 1)
  {
  }

  /**
   Refinement: the stream yields the pages one after the other, up to the last page, the first empty
   page or the first error, and no more items than the limit.
   */
  lemma {:induction false} OutputsAre<T>(server: Server<T>, limit: Option<nat>, s: State<T>, n: nat)
    ensures Outputs(server, limit, s, n) == Take(Allowed(Remaining(server, s, n), limit, s.yielded), n)
    decreases n
  {
    if n > 0 {
      var step := Next(server, limit, s);
      if step.out.None? {
        StopsAtEnd(server, limit, s, n);
      } else {
        var x, next := step.out.value, step.state;
        OutputsAre(server, limit, next, n - 1);
        OneStep(server, limit, s, x, next, n);
        OutputsNext(server, limit, s, x, next, n);
      }
    }
  }

  /** The whole stream: the limit-long prefix of the concatenated pages. */
  lemma ListsThePages<T>(server: Server<T>, limit: Option<nat>, n: nat)
    ensures Outputs(server, limit, Start(), n) ==
            Take(Allowed(Concatenated(server, 0, [], n), limit, 0), n)
  {
    OutputsAre(server, limit, Start(), n);
    assert Remaining(server, Start<T>(), n) == Concatenated(server, 0, [], n);
  }

  // ----- no page is fetched in vain -----

  /** The pages so far hold what was yielded and what is buffered. */
  ghost predicate Linked<T>(server: Server<T>, s: State<T>) {
    !s.exhausted ==>
      && |Concatenated(server, 0, [], s.calls)| == s.yielded + |s.buffer|
      && forall m: nat :: Joins(server, s, m)
  }

  ghost predicate Joins<T>(server: Server<T>, s: State<T>, m: nat) {
    Concatenated(server, 0, [], s.calls + m)
    == Concatenated(server, 0, [], s.calls) + Concatenated(server, s.calls, s.token, m)
  }

  /** The pages before the last one that was fetched hold fewer items than the limit. */
  ghost predicate Needed<T>(server: Server<T>, limit: nat, s: State<T>) {
    s.calls > 0 ==> |Concatenated(server, 0, [], s.calls - 1)| < limit
  }

  lemma JoinsPage<T>(server: Server<T>, s: State<T>, items: seq<T>, next: Token, m: nat)
    requires server(s.calls, s.token) == Page(items, next, true) && items != [] && next != []
    requires forall k: nat :: Joins(server, s, k)
    ensures Concatenated(server, 0, [], s.calls + 1 + m)
            == Concatenated(server, 0, [], s.calls) + Items(items) + Concatenated(server, s.calls + 1, next, m)
  {
    assert Joins(server, s, m + 1);
    assert s.calls + 1 + m == s.calls + (m + 1);
    var a, b, c := Concatenated(server, 0, [], s.calls), Items(items), Concatenated(server, s.calls + 1, next, m);
    assert Concatenated(server, s.calls, s.token, m + 1) == b + c;
    assert a + (b + c) == a + b + c;
  }

  lemma JoinsNext<T>(server: Server<T>, s: State<T>, items: seq<T>, next: Token, m: nat)
    requires server(s.calls, s.token) == Page(items, next, true) && items != [] && next != []
    requires forall k: nat :: Joins(server, s, k)
    ensures Concatenated(server, 0, [], s.calls + 1) == Concatenated(server, 0, [], s.calls) + Items(items)
    ensures Concatenated(server, 0, [], s.calls + 1 + m)
            == Concatenated(server, 0, [], s.calls + 1) + Concatenated(server, s.calls + 1, next, m)
  {
    JoinsPage(server, s, items, next, 0);
    JoinsPage(server, s, items, next, m);
    assert Concatenated(server, s.calls + 1, next, 0) == [];
  }

  lemma PopLinked<T>(server: Server<T>, limit: nat, s: State<T>)
    requires Linked(server, s) && s.buffer != [] && s.yielded < limit
    ensures Linked(server, Next(server, Some(limit), s).state)
  {
    var next := Next(server, Some(limit), s).state;
    if !s.exhausted {
      forall m: nat ensures Joins(server, next, m) { assert Joins(server, s, m); }
    }
  }

  lemma FetchLinked<T>(server: Server<T>, limit: nat, s: State<T>)
    requires Linked(server, s) && s.buffer == [] && s.yielded < limit && !s.exhausted
    requires Next(server, Some(limit), s).out.Some?
    ensures Linked(server, Next(server, Some(limit), s).state)
  {
    var next := Next(server, Some(limit), s).state;
    if !next.exhausted {
      var reply := server(s.calls, s.token);
      forall m: nat ensures Joins(server, next, m) { JoinsNext(server, s, reply.items, reply.next, m); }
      JoinsNext(server, s, reply.items, reply.next, 0);
    }
  }

  lemma StepLinked<T>(server: Server<T>, limit: nat, s: State<T>)
    requires Linked(server, s) && Needed(server, limit, s) && Next(server, Some(limit), s).out.Some?
    ensures var next := Next(server, Some(limit), s).state; Linked(server, next) && Needed(server, limit, next)
  {
    if s.buffer != [] { PopLinked(server, limit, s); } else { FetchLinked(server, limit, s); }
  }

  /** The state after `n` polls, or where the stream ended before. */
  function StateAfter<T>(server: Server<T>, limit: Option<nat>, s: State<T>, n: nat): State<T>
    decreases n
  {
    if n == 0 then s
    else
      var step := Next(server, limit, s);
      if step.out.None? then step.state else StateAfter(server, limit, step.state, n - 1)
  }

  lemma StopNeeded<T>(server: Server<T>, limit: nat, s: State<T>)
    requires Linked(server, s) && Needed(server, limit, s) && Next(server, Some(limit), s).out.None?
    ensures Needed(server, limit, Next(server, Some(limit), s).state)
  {
  }

  lemma {:induction false} FetchesNeeded<T>(server: Server<T>, limit: nat, s: State<T>, n: nat)
    requires Linked(server, s) && Needed(server, limit, s)
    ensures Needed(server, limit, StateAfter(server, Some(limit), s, n))
    decreases n
  {
    if n > 0 {
      var step := Next(server, Some(limit), s);
      if step.out.None? {
        StopNeeded(server, limit, s);
      } else {
        StepLinked(server, limit, s);
        FetchesNeeded(server, limit, step.state, n - 1);
      }
    }
  }

  /** Once the pages fetched hold as many items as the limit, no further page is fetched. */
  lemma NoFetchInVain<T>(server: Server<T>, limit: nat, n: nat)
    ensures Needed(server, limit, StateAfter(server, Some(limit), Start(), n))
  {
    forall m: nat ensures Joins(server, Start<T>(), m) { }
    FetchesNeeded(server, limit, Start<T>(), n);
  }

  // ----- schedules -----

  /** `list_schedules_stream`: the same machine without a limit. */
  class ScheduleStream<T> {
    const server: Server<T>
    var token: Token
    var buffer: seq<T>
    var exhausted: bool
    var calls: nat

    /** How many items were yielded. */
    ghost var yielded: nat

    ghost function Model(): State<T>
      reads this
    {
      State(token, buffer, yielded, exhausted, calls)
    }

    constructor (server: Server<T>)
      ensures Model() == Start() && this.server == server
    {
      this.server := server;
      token, buffer, exhausted, calls, yielded := [], [], false, 0, 0;
    }

    method PollNext() returns (out: Option<Out<T>>)
      modifies this
      ensures Step(out, Model()) == Next(server, None, old(Model()))
    {
      if buffer != [] {
        out := Some(Item(buffer[0]));
        buffer := buffer[1..];
        yielded := yielded + 1;
        return;
      } else if exhausted {
        return None;
      }
      var reply := server(calls, token);
      calls := calls + 1;
      match reply
      case Failed =>
        exhausted := true;
        return Some(Error);
      case Page(items, next, decodes) =>
        if !decodes {
          token, exhausted := next, true;
          return Some(Error);
        }
        if items == [] { return None; }
        token, exhausted := next, next == [];
        buffer := items[1..];
        yielded := yielded + 1;
        return Some(Item(items[0]));
    }
  }
}
