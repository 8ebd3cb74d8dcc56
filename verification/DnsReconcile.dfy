/**
 Keeping the endpoints of a balanced channel in step with DNS (crates/client/src/dns.rs). The
 balancer is the set of addresses that the changes sent so far leave in it.
 */
module DnsReconcile {
  import opened Common

  /** What a resolution gives; `broken` are the addresses for which no endpoint can be built in that round. */
  datatype Resolution<A> = Failed | Resolved(addrs: set<A>, broken: set<A>)

  /** `balancer` is what the channel holds, `current` what the resolver believes it holds. */
  datatype State<A> = State(balancer: set<A>, current: set<A>)

  /** The addresses on which the two differ. */
  function Drift<A>(s: State<A>): set<A> { (s.balancer - s.current) + (s.current - s.balancer) }

  predicate Skipped<A>(r: Resolution<A>) { r.Failed? || r.addrs == {} }

  /** One full round of the loop. */
  function Round<A>(s: State<A>, r: Resolution<A>): State<A> {
    if Skipped(r) then s
    else State(s.balancer - (s.current - r.addrs) + (r.addrs - s.current - r.broken), r.addrs)
  }

  /** The background loop that re-resolves the host. */
  class Resolver<A(==)> {
    var current: set<A>
    var balancer: set<A>

    function Model(): State<A>
      reads this
    {
      State(balancer, current)
    }

    /** The channel was seeded by one resolution, the loop starts from another, or from nothing if that failed. */
    constructor (seeded: set<A>, initial: Resolution<A>)
      ensures Model() == State(seeded, if initial.Failed? then {} else initial.addrs)
    {
      balancer := seeded;
      current := if initial.Failed? then {} else initial.addrs;
    }

    /** Sends a removal for each address that is gone, while the channel takes changes. */
    method RemoveStale(addrs: set<A>, capacity: nat) returns (alive: bool, left: nat)
      modifies this`balancer
      ensures alive <==> |current - addrs| <= capacity
      ensures alive ==> left == capacity - |current - addrs| && balancer == old(balancer) - (current - addrs)
      ensures old(balancer) - (current - addrs) <= balancer <= old(balancer)
    {
      left := capacity;
      var stale := current - addrs;
      while stale != {}
        invariant stale <= current - addrs && left + |current - addrs| == capacity + |stale|
        invariant balancer == old(balancer) - (current - addrs - stale)
        decreases |stale|
      {
        var addr :| addr in stale;
        if left == 0 { return false, 0; }
        left := left - 1;
        balancer := balancer - {addr};
        stale := stale - {addr};
      }
      alive := true;
    }

    /** Sends an insertion for each new address whose endpoint can be built. */
    method AddNew(addrs: set<A>, broken: set<A>, capacity: nat) returns (alive: bool)
      modifies this`balancer
      ensures alive <==> |addrs - current - broken| <= capacity
      ensures alive ==> balancer == old(balancer) + (addrs - current - broken)
      ensures old(balancer) <= balancer <= old(balancer) + (addrs - current - broken)
    {
      var left: nat := capacity;
      var added := addrs - current;
      ghost var wanted, todo := addrs - current - broken, addrs - current - broken;
      while added != {}
        invariant added <= addrs - current && todo <= wanted && left + |wanted| == capacity + |todo|
        invariant forall a :: a in todo <==> a in added && a !in broken
        invariant balancer == old(balancer) + (wanted - todo)
        decreases |added|
      {
        var addr :| addr in added;
        if addr !in broken {
          assert addr in todo && |todo| > 0;
          if left == 0 { return false; }
          left := left - 1;
          balancer := balancer + {addr};
          todo := todo - {addr};
        }
        added := added - {addr};
      }
      assert todo == {};
      alive := true;
    }

    /**
     One pass of the loop, with a channel that takes up to `capacity` more changes. If that is enough,
     the pass is a full round; otherwise the loop ends somewhere in between.
     */
    method Reconcile(r: Resolution<A>, capacity: nat) returns (alive: bool)
      modifies this
      ensures alive <==> Skipped(r) || |old(current) - r.addrs| + |r.addrs - old(current) - r.broken| <= capacity
      ensures alive ==> Model() == Round(old(Model()), r)
      ensures !alive ==> current == old(current)
      ensures !alive ==> old(balancer) - (current - r.addrs) <= balancer
      ensures !alive ==> balancer <= old(balancer) + (r.addrs - current - r.broken)
    {
      if r.Failed? || r.addrs == {} { return true; }
      var left: nat;
      alive, left := RemoveStale(r.addrs, capacity);
      if !alive { return; }
      alive := AddNew(r.addrs, r.broken, left);
      if !alive { return; }
      current := r.addrs;
    }
  }

  // ----- one round -----

  /** DNS says the same about the address as the resolver believed. */
  predicate Unchanged<A>(s: State<A>, r: Resolution<A>, x: A) {
    Skipped(r) || (x in s.current <==> x in r.addrs)
  }

  /** The address is new, its endpoint cannot be built, and the balancer does not have it by chance. */
  predicate MissedInsert<A>(s: State<A>, r: Resolution<A>, x: A) {
    !Skipped(r) && x in r.addrs - s.current && x in r.broken && x !in s.balancer
  }

  /**
   After a round the two sets differ exactly where they differed before and DNS changed nothing, or where
   a build failed.
   */
  lemma DriftAfterRound<A>(s: State<A>, r: Resolution<A>, x: A)
    ensures x in Drift(Round(s, r)) <==> (x in Drift(s) && Unchanged(s, r, x)) || MissedInsert(s, r, x)
  {
  }

  // ----- any number of rounds -----

  function After<A>(s: State<A>, rs: seq<Resolution<A>>, k: nat): State<A>
    requires k <= |rs|
    decreases k
  {
    if k == 0 then s else Round(After(s, rs, k - 1), rs[k - 1])
  }

  /** The address has differed since round `j`, because DNS has said nothing new about it. */
  ghost predicate UnchangedSince<A>(s: State<A>, rs: seq<Resolution<A>>, j: nat, k: nat, x: A)
    requires j <= k <= |rs|
  {
    forall m :: j <= m < k ==> Unchanged(After(s, rs, m), rs[m], x)
  }

  /** Where a difference comes from: it was there at the start, or the build failed in the round before `j`. */
  ghost predicate DriftBegins<A>(s: State<A>, rs: seq<Resolution<A>>, j: nat, x: A)
    requires j <= |rs|
  {
    if j == 0 then x in Drift(s) else MissedInsert(After(s, rs, j - 1), rs[j - 1], x)
  }

  /**
   Over any run, the balancer and the believed set differ on an address if and only if they began to
   at the start or at a failed build, and DNS has said nothing new about the address since.
   */
  lemma {:induction false} DriftIff<A>(s: State<A>, rs: seq<Resolution<A>>, k: nat, x: A)
    requires k <= |rs|
    ensures x in Drift(After(s, rs, k)) <==>
            exists j :: 0 <= j <= k && DriftBegins(s, rs, j, x) && UnchangedSince(s, rs, j, k, x)
    decreases k
  {
    if k == 0 {
      assert DriftBegins(s, rs, 0, x) <==> x in Drift(s);
      assert UnchangedSince(s, rs, 0, 0, x);
    } else {
      DriftIff(s, rs, k - 1, x);
      DriftAfterRound(After(s, rs, k - 1), rs[k - 1], x);
      if x in Drift(After(s, rs, k)) {
        if MissedInsert(After(s, rs, k - 1), rs[k - 1], x) {
          assert DriftBegins(s, rs, k, x) && UnchangedSince(s, rs, k, k, x);
        } else {
          var j :| 0 <= j <= k - 1 && DriftBegins(s, rs, j, x) && UnchangedSince(s, rs, j, k - 1, x);
          assert UnchangedSince(s, rs, j, k, x);
        }
      }
      if j :| 0 <= j <= k && DriftBegins(s, rs, j, x) && UnchangedSince(s, rs, j, k, x) {
        if j < k { assert UnchangedSince(s, rs, j, k - 1, x); }
      }
    }
  }

  /** The last resolution that succeeded and was not empty, or what the resolver started from. */
  function LastResolved<A>(start: set<A>, rs: seq<Resolution<A>>, k: nat): set<A>
    requires k <= |rs|
    decreases k
  {
    if k == 0 then start
    else if rs[k - 1].Failed? || rs[k - 1].addrs == {} then LastResolved(start, rs, k - 1)
    else rs[k - 1].addrs
  }

  /** If the channel was seeded as the resolver believes and every endpoint can be built, the balancer follows DNS. */
  lemma {:induction false} BalancerFollows<A>(s: State<A>, rs: seq<Resolution<A>>, k: nat)
    requires k <= |rs| && Drift(s) == {}
    requires forall m :: 0 <= m < |rs| ==> rs[m].Failed? || rs[m].broken == {}
    ensures After(s, rs, k).balancer == After(s, rs, k).current == LastResolved(s.current, rs, k)
    decreases k
  {
    if k == 0 {
      assert forall x :: x in s.balancer <==> x in s.current by {
        forall x ensures x in s.balancer <==> x in s.current { assert x !in Drift(s); }
      }
    } else {
      BalancerFollows(s, rs, k - 1);
    }
  }

  /** An endpoint that the resolver does not know of stays in the balancer for as long as DNS does not name it. */
  lemma {:induction false} UnknownStays<A>(s: State<A>, rs: seq<Resolution<A>>, k: nat, x: A)
    requires k <= |rs| && x in s.balancer && x !in s.current
    requires forall m :: 0 <= m < |rs| ==> rs[m].Failed? || x !in rs[m].addrs
    ensures x in After(s, rs, k).balancer && x !in After(s, rs, k).current
    decreases k
  {
    if k > 0 { UnknownStays(s, rs, k - 1, x); }
  }

  /** So if the resolver's first resolution fails, the seeded endpoints that DNS drops are never removed. */
  lemma SeededStays<A>(seeded: set<A>, rs: seq<Resolution<A>>, k: nat, x: A)
    requires k <= |rs| && x in seeded
    requires forall m :: 0 <= m < |rs| ==> rs[m].Failed? || x !in rs[m].addrs
    ensures x in After(State(seeded, {}), rs, k).balancer
  {
    UnknownStays(State(seeded, {}), rs, k, x);
  }
}
