/**
 The stream of activities: a page is asked for again after a failure, and empty pages are skipped
 (crates/client/src/lib.rs and crates/client/src/activity.rs).
 */
module ActivityPages {
  import opened Common
  import opened Pagination

  /** The page that belongs to a token. */
  datatype ActivityPage<T> = ActivityPage(items: seq<T>, next: Token)

  type Pages<!T> = Token -> ActivityPage<T>

  /** What happens when the pending request is looked at. */
  datatype Event = NotReady | Fails | Responds

  datatype Poll<T> = Pending | Ready(out: Option<Out<T>>)

  /** `next` is the token of the page to ask for, `None` after the last one; `fetched` counts the pages received. */
  datatype Progress<T> = Progress(buffer: seq<T>, next: Option<Token>, fetched: nat)

  function Begin<T>(): Progress<T> { Progress([], Some([]), 0) }

  function Received<T>(page: ActivityPage<T>, fetched: nat): Progress<T> {
    Progress(page.items, if page.next == [] then None else Some(page.next), fetched + 1)
  }

  datatype Polled<T> = Polled(poll: Poll<T>, progress: Progress<T>, events: seq<Event>)

  /** One poll of the stream, which may look at several events. */
  function PollOnce<T>(pages: Pages<T>, p: Progress<T>, events: seq<Event>): Polled<T>
    decreases |events|
  {
    if p.buffer != [] then
      Polled(Ready(Some(Item(p.buffer[0]))), p.(buffer := p.buffer[1..]), events)
    else if p.next.None? then Polled(Ready(None), p, events)
    else if events == [] then Polled(Pending, p, events)
    else
      match events[0]
      case NotReady => Polled(Pending, p, events[1..])
      case Fails => Polled(Ready(Some(Error)), p, events[1..])
      case Responds => PollOnce(pages, Received(pages(p.next.value), p.fetched), events[1..])
  }

  /** `ListActivitiesStream`. */
  class ActivityStream<T> {
    const pages: Pages<T>
    var buffer: seq<T>
    var next: Option<Token>
    var fetched: nat

    function Model(): Progress<T>
      reads this
    {
      Progress(buffer, next, fetched)
    }

    constructor (pages: Pages<T>)
      ensures Model() == Begin() && this.pages == pages
    {
      this.pages := pages;
      buffer, next, fetched := [], Some([]), 0;
    }

    /** `poll_next`: loops until there is something to return. */
    method PollNext(events: seq<Event>) returns (poll: Poll<T>, rest: seq<Event>)
      modifies this
      ensures Polled(poll, Model(), rest) == PollOnce(pages, old(Model()), events)
    {
      rest := events;
      while true
        invariant PollOnce(pages, Model(), rest) == PollOnce(pages, old(Model()), events)
        decreases |rest|
      {
        if buffer != [] {
          poll := Ready(Some(Item(buffer[0])));
          buffer := buffer[1..];
          return;
        }
        if next.None? { return Ready(None), rest; }
        if rest == [] { return Pending, rest; }
        var event := rest[0];
        rest := rest[1..];
        match event
        case NotReady => return Pending, rest;
        case Fails => return Ready(Some(Error)), rest;
        case Responds =>
          var page := pages(next.value);
          buffer := page.items;
          next := if page.next == [] then None else Some(page.next);
          fetched := fetched + 1;
      }
    }
  }

  // ----- all pages -----

  /** The token after the first `k` pages, `None` if there are no more. */
  function TokenAt<T>(pages: Pages<T>, k: nat): Option<Token>
    decreases k
  {
    if k == 0 then Some([])
    else
      var token := TokenAt(pages, k - 1);
      if token.None? || pages(token.value).next == [] then None else Some(pages(token.value).next)
  }

  /** The items of the first `k` pages. */
  function Listed<T>(pages: Pages<T>, k: nat): seq<T>
    decreases k
  {
    if k == 0 then []
    else
      var token := TokenAt(pages, k - 1);
      if token.None? then Listed(pages, k - 1) else Listed(pages, k - 1) + pages(token.value).items
  }

  /** What was given away and what is buffered are the pages received so far. */
  ghost predicate Keeps<T>(pages: Pages<T>, p: Progress<T>, given: seq<T>) {
    given + p.buffer == Listed(pages, p.fetched) && p.next == TokenAt(pages, p.fetched)
  }

  function GivenBy<T>(poll: Poll<T>): seq<T> {
    if poll.Ready? && poll.out.Some? && poll.out.value.Item? then [poll.out.value.value] else []
  }

  lemma ReceiveKeeps<T>(pages: Pages<T>, p: Progress<T>, given: seq<T>)
    requires Keeps(pages, p, given) && p.buffer == [] && p.next.Some?
    ensures Keeps(pages, Received(pages(p.next.value), p.fetched), given)
  {
  }

  /** One poll loses nothing and repeats nothing. */
  lemma {:induction false} PollKeeps<T>(pages: Pages<T>, p: Progress<T>, events: seq<Event>, given: seq<T>)
    requires Keeps(pages, p, given)
    ensures var r := PollOnce(pages, p, events);
            && Keeps(pages, r.progress, given + GivenBy(r.poll))
            && (r.poll == Ready(None) ==> r.progress.next.None? && r.progress.buffer == [])
    decreases |events|
  {
    var r := PollOnce(pages, p, events);
    if p.buffer != [] {
      assert given + [p.buffer[0]] + p.buffer[1..] == given + p.buffer;
    } else if p.next.Some? && events != [] && events[0].Responds? {
      ReceiveKeeps(pages, p, given);
      PollKeeps(pages, Received(pages(p.next.value), p.fetched), events[1..], given);
    } else {
      assert given + [] == given;
    }
  }

  /** The stream after `n` polls. */
  datatype Run<T> = Run(progress: Progress<T>, events: seq<Event>, given: seq<T>, ended: bool)

  function Polls<T>(pages: Pages<T>, p: Progress<T>, events: seq<Event>, n: nat): Run<T>
    decreases n
  {
    if n == 0 then Run(p, events, [], false) else PollAgain(pages, Polls(pages, p, events, n - 1))
  }

  /** One more poll, unless the stream has ended. */
  function PollAgain<T>(pages: Pages<T>, before: Run<T>): Run<T> {
    if before.ended then before
    else
      var r := PollOnce(pages, before.progress, before.events);
      Run(r.progress, r.events, before.given + GivenBy(r.poll), r.poll == Ready(None))
  }

  /**
   Whatever fails and however often nothing is ready, the items yielded so far and those buffered
   are those of the pages received, each once and in order; the stream ends only after the last page.
   */
  lemma {:induction false} NothingLost<T>(pages: Pages<T>, events: seq<Event>, n: nat)
    ensures var run := Polls(pages, Begin(), events, n);
            && Keeps(pages, run.progress, run.given)
            && (run.ended ==> run.progress.next.None? && run.progress.buffer == [])
    decreases n
  {
    if n > 0 {
      NothingLost(pages, events, n - 1);
      var before := Polls(pages, Begin(), events, n - 1);
      if !before.ended { PollKeeps(pages, before.progress, before.events, before.given); }
    }
  }

  // ----- the stream ends -----

  lemma {:induction false} NoMorePages<T>(pages: Pages<T>, k: nat, m: nat)
    requires k <= m && TokenAt(pages, k).None?
    ensures TokenAt(pages, m).None? && Listed(pages, m) == Listed(pages, k)
    decreases m
  {
    if k < m { NoMorePages(pages, k, m - 1); }
  }

  function Responses(events: seq<Event>): nat
    decreases |events|
  {
    if events == [] then 0 else Responses(events[1..]) + if events[0].Responds? then 1 else 0
  }

  /** Events and items that are left. */
  ghost function Left<T>(pages: Pages<T>, k: nat, events: seq<Event>, given: seq<T>): int {
    |events| + |Listed(pages, k)| - |given|
  }

  /** Enough responses are to come for the `k` pages there are. */
  ghost predicate Enough<T>(pages: Pages<T>, k: nat, p: Progress<T>, events: seq<Event>) {
    p.next.Some? ==> p.fetched + Responses(events) >= k
  }

  lemma {:induction false} PollMoves<T>(pages: Pages<T>, k: nat, p: Progress<T>, events: seq<Event>, given: seq<T>)
    requires Keeps(pages, p, given) && TokenAt(pages, k).None? && Enough(pages, k, p, events)
    ensures var r := PollOnce(pages, p, events);
            && Enough(pages, k, r.progress, r.events)
            && (r.poll != Ready(None) ==> Left(pages, k, r.events, given + GivenBy(r.poll)) < Left(pages, k, events,
                given))
    decreases |events|
  {
    if p.buffer == [] && p.next.Some? {
      if k <= p.fetched { NoMorePages(pages, k, p.fetched); }
      if events != [] && events[0].Responds? {
        ReceiveKeeps(pages, p, given);
        PollMoves(pages, k, Received(pages(p.next.value), p.fetched), events[1..], given);
      }
    }
  }

  lemma {:induction false} ListedGrows<T>(pages: Pages<T>, m: nat, k: nat)
    requires m <= k
    ensures |Listed(pages, m)| <= |Listed(pages, k)|
    decreases k
  {
    if m < k { ListedGrows(pages, m, k - 1); }
  }

  lemma GivenAtMost<T>(pages: Pages<T>, k: nat, p: Progress<T>, events: seq<Event>, given: seq<T>)
    requires Keeps(pages, p, given) && TokenAt(pages, k).None?
    ensures Left(pages, k, events, given) >= 0
  {
    if k <= p.fetched { NoMorePages(pages, k, p.fetched); } else { ListedGrows(pages, p.fetched, k); }
  }

  /** Nothing was lost, and the stream has ended or no more than `total` events and items are left. */
  ghost predicate Moving<T>(pages: Pages<T>, k: nat, run: Run<T>, total: int) {
    && Keeps(pages, run.progress, run.given) && Enough(pages, k, run.progress, run.events)
    && (run.ended || Left(pages, k, run.events, run.given) <= total)
  }

  lemma MovesOn<T>(pages: Pages<T>, k: nat, before: Run<T>, total: int)
    requires TokenAt(pages, k).None? && Moving(pages, k, before, total)
    ensures Moving(pages, k, PollAgain(pages, before), total - 1)
  {
    if !before.ended {
      PollMoves(pages, k, before.progress, before.events, before.given);
      PollKeeps(pages, before.progress, before.events, before.given);
    }
  }

  lemma {:induction false} PollsMove<T>(pages: Pages<T>, k: nat, events: seq<Event>, n: nat)
    requires TokenAt(pages, k).None? && Responses(events) >= k
    ensures Moving(pages, k, Polls(pages, Begin(), events, n), Left<T>(pages, k, events, []) - n)
    decreases n
  {
    if n > 0 {
      PollsMove(pages, k, events, n - 1);
      MovesOn(pages, k, Polls(pages, Begin(), events, n - 1), Left<T>(pages, k, events, []) - (n - 1));
    }
  }

  /**
   If there are `k` pages and the server answers often enough, then whatever fails in between, the
   stream ends, having yielded every item of every page once and in order.
   */
  lemma YieldsEverything<T>(pages: Pages<T>, k: nat, events: seq<Event>, n: nat)
    requires TokenAt(pages, k).None? && Responses(events) >= k && n > |events| + |Listed(pages, k)|
    ensures Polls(pages, Begin(), events, n).ended && Polls(pages, Begin(), events, n).given == Listed(pages, k)
  {
    var run := Polls(pages, Begin<T>(), events, n);
    PollsMove(pages, k, events, n);
    NothingLost(pages, events, n);
    GivenAtMost(pages, k, run.progress, run.events, run.given);
    var m := run.progress.fetched;
    if m <= k { NoMorePages(pages, m, k); } else { NoMorePages(pages, k, m); }
    assert run.given + [] == run.given;
  }
}
