/** What a rejected client is told, and what rejected requests do to the others: nothing. */
module RateLimiterReset {
  import opened Bank
  import opened RateLimiter
  import opened RateLimiterRuns
  import opened RateLimiterBounds

  /** Looking again later shows what looking only later would have shown. */
  lemma ViewTwice(z: ZSet, now: int, later: int, window: int)
    requires now <= later
    ensures View(View(z, now, window), later, window) == View(z, later, window)
  {
    var first := View(z, now, window);
    var direct, twice := Seen(z, later), Seen(first, later);
    assert direct.members - InRangeOf(direct.members, 0, later - window)
           == twice.members - InRangeOf(twice.members, 0, later - window);
  }

  lemma OrderedAt(reqs: seq<Req>)
    requires InOrder(reqs) && reqs != []
    ensures InOrder(reqs[..|reqs| - 1])
    ensures Clock(reqs[..|reqs| - 1]) <= reqs[|reqs| - 1].now <= reqs[|reqs| - 1].stamp == Clock(reqs)
    ensures 0 <= reqs[|reqs| - 1].now
  {
    if |reqs| > 1 { assert reqs[..|reqs| - 1][|reqs| - 2] == reqs[|reqs| - 2]; }
  }

  // ---- rejected requests leave no trace ----

  /** The run without its rejected requests. */
  function AdmittedOnly(reqs: seq<Req>, max: int, window: int): seq<Req>
    decreases |reqs|
  {
    if reqs == [] then []
    else
      var rest, r := reqs[..|reqs| - 1], reqs[|reqs| - 1];
      if VerdictOn(rest, r, max, window).admitted then AdmittedOnly(rest, max, window) + [r] else AdmittedOnly(rest, max, window)
  }

  /** The verdict, with all its headers, depends on nothing but what the request finds. */
  lemma SameView(reqs: seq<Req>, others: seq<Req>, r: Req, max: int, window: int)
    requires View(After(reqs, max, window), r.now, window) == View(After(others, max, window), r.now, window)
    ensures VerdictOn(reqs, r, max, window) == VerdictOn(others, r, max, window)
    ensures Handle(After(reqs, max, window), r.now, r.stamp, max, window)
            == Handle(After(others, max, window), r.now, r.stamp, max, window)
  {
    hide View, After, WithExpiry, Add, Seen;
  }

  /** A rejected request leaves what it found. */
  lemma RejectedLeaves(z: ZSet, r: Req, max: int, window: int)
    requires !Handle(z, r.now, r.stamp, max, window).1.admitted
    ensures Handle(z, r.now, r.stamp, max, window).0 == View(z, r.now, window)
  {
    hide View, WithExpiry, Add, Seen;
  }

  lemma ResetAhead(reqs: seq<Req>, r: Req, max: nat, window: int)
    requires InOrder(reqs) && Clock(reqs) <= r.now && window > 0 && !VerdictOn(reqs, r, max, window).admitted
    ensures r.now < VerdictOn(reqs, r, max, window).nextReset <= r.now + window
  {
    var z, least := RejectedMeans(reqs, r, max, window);
    hide VerdictOn;
  }

  lemma Headers(reqs: seq<Req>, r: Req, max: int, window: int)
    requires !VerdictOn(reqs, r, max, window).admitted
    ensures var v := VerdictOn(reqs, r, max, window);
            v.reset == Seconds(v.nextReset) && v.retryAfter == Max(Seconds(v.nextReset - r.now), 0)
  {
    hide View, WithExpiry, Add, Seen, After, Seconds, Max;
  }

  /**
   Rejected requests can be taken out of any run: the same stamps are admitted, and every
   later request finds the same set and gets the same verdict with the same headers.
   */
  lemma {:induction false} RejectionsErased(reqs: seq<Req>, later: Req, max: int, window: int)
    requires InOrder(reqs) && Clock(reqs) <= later.now
    ensures View(After(AdmittedOnly(reqs, max, window), max, window), later.now, window) == View(After(reqs, max, window), later.now, window)
    ensures VerdictOn(AdmittedOnly(reqs, max, window), later, max, window) == VerdictOn(reqs, later, max, window)
    ensures Served(AdmittedOnly(reqs, max, window), max, window) == Served(reqs, max, window)
    decreases |reqs|
  {
    hide View, After, Served, Handle, VerdictOn, InOrder;
    if reqs != [] {
      var rest, r := reqs[..|reqs| - 1], reqs[|reqs| - 1];
      OrderedAt(reqs);
      RejectionsErased(rest, r, max, window);
      var kept := AdmittedOnly(rest, max, window);
      assert reqs == rest + [r];
      SameView(kept, rest, r, max, window);
      OneMore(rest, r, max, window);
      if VerdictOn(rest, r, max, window).admitted {
        OneMore(kept, r, max, window);
      } else {
        RejectedOne(rest, r, later.now, max, window);
        RejectionsErased(rest, later, max, window);
      }
      SameView(AdmittedOnly(reqs, max, window), reqs, later, max, window);
    }
  }

  /** From the n-th on, all requests are rejected. */
  ghost predicate RejectedFrom(reqs: seq<Req>, n: nat, max: int, window: int) {
    forall i :: n <= i < |reqs| ==> !VerdictOn(reqs[..i], reqs[i], max, window).admitted
  }

  lemma RejectedPrefix(reqs: seq<Req>, n: nat, max: int, window: int)
    requires n < |reqs| && RejectedFrom(reqs, n, max, window)
    ensures RejectedFrom(reqs[..|reqs| - 1], n, max, window)
    ensures !VerdictOn(reqs[..|reqs| - 1], reqs[|reqs| - 1], max, window).admitted
  {
    hide VerdictOn;
    var rest := reqs[..|reqs| - 1];
    forall i | n <= i < |rest|
      ensures !VerdictOn(rest[..i], rest[i], max, window).admitted
    {
      assert rest[..i] == reqs[..i];
    }
  }

  lemma {:induction false} RejectedView(reqs: seq<Req>, n: nat, later: int, max: int, window: int)
    requires InOrder(reqs) && n <= |reqs| && RejectedFrom(reqs, n, max, window) && Clock(reqs) <= later
    ensures View(After(reqs, max, window), later, window) == View(After(reqs[..n], max, window), later, window)
    decreases |reqs|
  {
    hide View, After, VerdictOn, RejectedFrom, InOrder;
    if n < |reqs| {
      var rest, r := reqs[..|reqs| - 1], reqs[|reqs| - 1];
      OrderedAt(reqs);
      RejectedPrefix(reqs, n, max, window);
      assert rest[..n] == reqs[..n] && reqs == rest + [r];
      RejectedView(rest, n, later, max, window);
      RejectedOne(rest, r, later, max, window);
    } else {
      assert reqs[..n] == reqs;
    }
  }

  lemma RejectedOne(reqs: seq<Req>, r: Req, later: int, max: int, window: int)
    requires !VerdictOn(reqs, r, max, window).admitted && r.now <= later
    ensures View(After(reqs + [r], max, window), later, window) == View(After(reqs, max, window), later, window)
  {
    hide View, After, Handle;
    OneMore(reqs, r, max, window);
    RejectedLeaves(After(reqs, max, window), r, max, window);
    ViewTwice(After(reqs, max, window), r.now, later, window);
  }

  // ---- the reset time ----

  /** One at a time, requests never bring the set above one over the limit. */
  lemma {:induction false} SetAtMost(reqs: seq<Req>, max: nat, window: int)
    ensures |After(reqs, max, window).members| <= max + 1
    decreases |reqs|
  {
    if reqs != [] {
      var rest, r := reqs[..|reqs| - 1], reqs[|reqs| - 1];
      SetAtMost(rest, max, window);
      HandleAtMost(After(rest, max, window), r, max, window);
    }
  }

  lemma HandleAtMost(z: ZSet, r: Req, max: nat, window: int)
    requires |z.members| <= max + 1
    ensures |View(z, r.now, window).members| <= max + 1
    ensures |Handle(z, r.now, r.stamp, max, window).0.members| <= max + 1
  {
    SubsetSize(View(z, r.now, window).members, z.members);
    var left := View(z, r.now, window);
    SubsetSize(Seen(left, r.stamp).members, left.members);
    hide View;
  }

  /** Among max + 1 different stamps one is at least max after the least. */
  lemma SpreadOut(s: set<int>, least: int, max: nat) returns (t: int)
    requires |s| == max + 1 && forall x :: x in s ==> least <= x
    ensures t in s && least + max <= t
  {
    hide Stamps;
    if forall x :: x in s ==> x < least + max {
      SubsetSize(s, Stamps(least, max));
      assert false;
    }
    t :| t in s && least + max <= t;
  }

  /** A rejected request meets one over the limit. */
  lemma RejectedMeans(reqs: seq<Req>, r: Req, max: nat, window: int) returns (z: ZSet, least: int)
    requires InOrder(reqs) && Clock(reqs) <= r.now && window > 0
    requires !VerdictOn(reqs, r, max, window).admitted
    ensures z == View(After(reqs, max, window), r.now, window)
    ensures |z.members| == max + 1 && least in z.members && forall m :: m in z.members ==> least <= m
    ensures 0 <= least && r.now - window < least <= r.now
    ensures VerdictOn(reqs, r, max, window)
            == Verdict(false, 0, least + window, Seconds(least + window), Max(Seconds(least + window - r.now), 0))
    ensures z.deadline.Some? && forall m :: m in z.members ==> m + Lifetime(window) <= z.deadline.value
  {
    hide Lifetime;
    z := View(After(reqs, max, window), r.now, window);
    SetAtMost(reqs, max, window);
    HandleAtMost(After(reqs, max, window), r, max, window);
    least := Least(z.members);
    var g := RunLog(reqs, max, window);
    RejectedLog(After(reqs, max, window), Served(reqs, max, window), g, Clock(reqs), r.now, window);
  }

  lemma RejectedLog(z: ZSet, served: set<int>, g: int, clock: int, now: int, window: int)
    requires Log(z, served, g, clock, window) && clock <= now && View(z, now, window).members != {}
    ensures var left := View(z, now, window);
            && left.deadline.Some?
            && forall m :: m in left.members ==> 0 <= m <= now && now - window < m && m + Lifetime(window) <= left.deadline.value
  {
    hide Lifetime;
    assert View(z, now, window).deadline == z.deadline;
  }

  /** With these members, a full set stays full until its least leaves the window, and not longer. */
  lemma FullUntil(z: ZSet, least: int, max: nat, window: int, now: int, later: int)
    requires |z.members| == max + 1 && least in z.members && forall m :: m in z.members ==> least <= m
    requires 0 <= least && now <= later && window > 0 && Roomy(max, window)
    requires z.deadline.Some? && forall m :: m in z.members ==> m + Lifetime(window) <= z.deadline.value
    ensures |View(z, later, window).members| <= max <==> least + window <= later
  {
    LifetimeIs(window);
    hide Lifetime;
    if later < least + window {
      var last := SpreadOut(z.members, least, max);
      assert later < z.deadline.value;
      assert z.members - InRangeOf(z.members, 0, later - window) == z.members;
    } else {
      SubsetSize(View(z, later, window).members, z.members - {least});
    }
  }

  /**
   Exact reset. The n-th request was rejected and nothing was admitted since. Its verdict
   computed a reset time after its own and at most a window later; the next request is
   admitted from that time on, and rejected before.
   */
  lemma ResetExact(reqs: seq<Req>, n: nat, later: Req, max: nat, window: int)
    requires InOrder(reqs) && n < |reqs| && RejectedFrom(reqs, n, max, window)
    requires Clock(reqs) <= later.now && window > 0 && Roomy(max, window)
    ensures var v := VerdictOn(reqs[..n], reqs[n], max, window);
            && reqs[n].now < v.nextReset <= reqs[n].now + window
            && (VerdictOn(reqs, later, max, window).admitted <==> v.nextReset <= later.now)
  {
    PrefixOrder(reqs, n);
    var z, least := RejectedMeans(reqs[..n], reqs[n], max, window);
    RejectedView(reqs, n, later.now, max, window);
    ViewTwice(After(reqs[..n], max, window), reqs[n].now, later.now, window);
    FullUntil(z, least, max, window, reqs[n].now, later.now);
    hide View, After, Lifetime;
  }

  lemma {:induction false} PrefixOrder(reqs: seq<Req>, n: nat)
    requires InOrder(reqs) && n < |reqs|
    ensures InOrder(reqs[..n]) && Clock(reqs[..n]) <= reqs[n].now <= Clock(reqs) && 0 <= reqs[n].now
    decreases |reqs|
  {
    OrderedAt(reqs);
    if n < |reqs| - 1 {
      PrefixOrder(reqs[..|reqs| - 1], n);
      assert reqs[..|reqs| - 1][..n] == reqs[..n];
    }
  }

  ghost predicate AlwaysExact(max: nat, window: int) {
    forall reqs, n: nat, later: Req ::
      InOrder(reqs) && n < |reqs| && RejectedFrom(reqs, n, max, window) && Clock(reqs) <= later.now ==>
        (VerdictOn(reqs, later, max, window).admitted <==> VerdictOn(reqs[..n], reqs[n], max, window).nextReset <= later.now)
  }

  /** The reset time is exact in exactly these configurations. */
  lemma ResetExactIff(max: nat, window: int)
    requires window > 0
    ensures AlwaysExact(max, window) <==> Roomy(max, window)
  {
    if Roomy(max, window) {
      forall reqs, n: nat, later: Req |
        InOrder(reqs) && n < |reqs| && RejectedFrom(reqs, n, max, window) && Clock(reqs) <= later.now
        ensures VerdictOn(reqs, later, max, window).admitted <==> VerdictOn(reqs[..n], reqs[n], max, window).nextReset <= later.now
      {
        ResetExact(reqs, n, later, max, window);
      }
    } else {
      var reqs, n, later := EarlyReset(max, window);
    }
  }

  /** The key lapses, and a request is admitted, before the reset time. */
  lemma EarlyReset(max: nat, window: int) returns (reqs: seq<Req>, n: nat, later: Req)
    requires window > 0 && !Roomy(max, window)
    ensures InOrder(reqs) && n < |reqs| && RejectedFrom(reqs, n, max, window) && Clock(reqs) <= later.now
    ensures VerdictOn(reqs, later, max, window).admitted
    ensures later.now < VerdictOn(reqs[..n], reqs[n], max, window).nextReset
  {
    n := max + 1;
    var t := Silence(n, max, window);
    later := Req(t, t);
    var before, r := EachMillisecond(n), Req(max, max);
    reqs := before + [r];
    assert reqs[..n] == before && reqs[n] == r;
    MillisecondOrder(n);
    Snoc(before, r);
    FullRejects(n, max, window);
    assert RejectedFrom(reqs, n, max, window);
    LifetimeIs(window);
    hide Lifetime, EachMillisecond;
    RejectedView(reqs, n, t, max, window);
    SameView(before, reqs, later, max, window);
  }

  /** One more request in the last millisecond is rejected until the stamp 0 leaves the window. */
  lemma FullRejects(n: nat, max: nat, window: int)
    requires n == max + 1 < window
    ensures var v := VerdictOn(EachMillisecond(n), Req(max, max), max, window); !v.admitted && v.nextReset == window
  {
    MillisecondAfter(n, max, window);
    LifetimeIs(window);
    hide Lifetime, EachMillisecond, After;
    assert 0 in Stamps(0, n);
    var z := MillisecondKey(n, window);
    PurgeNothing(z, max - window);
    LeastUnique(z.members, 0);
  }

  /**
   The X-RateLimit-Reset header is cut down to whole seconds: it is less than a second early,
   and a client that comes at that time, or at once if it has passed, is admitted if and
   only if the reset time is a whole number of seconds.
   */
  lemma ResetHeaderHonestIff(reqs: seq<Req>, n: nat, stamp: int, max: nat, window: int)
    requires InOrder(reqs) && n < |reqs| && RejectedFrom(reqs, n, max, window) && window > 0 && Roomy(max, window)
    ensures var v := VerdictOn(reqs[..n], reqs[n], max, window);
            var back := Max(reqs[n].now, 1000 * v.reset);
            && v.nextReset - 1000 < 1000 * v.reset <= v.nextReset
            && (Clock(reqs) <= back ==>
                  (VerdictOn(reqs, Req(back, stamp), max, window).admitted <==> v.nextReset % 1000 == 0))
  {
    hide VerdictOn, InOrder, Seconds, Max;
    var back := Max(reqs[n].now, 1000 * VerdictOn(reqs[..n], reqs[n], max, window).reset);
    if Clock(reqs) <= back { ResetExact(reqs, n, Req(back, stamp), max, window); }
    PrefixOrder(reqs, n);
    ResetAhead(reqs[..n], reqs[n], max, window);
    Headers(reqs[..n], reqs[n], max, window);
    WholeSeconds(reqs[n].now, VerdictOn(reqs[..n], reqs[n], max, window).nextReset);
  }

  lemma WholeSeconds(now: int, reset: int)
    requires 0 <= now < reset
    ensures reset - 1000 < 1000 * Seconds(reset) <= reset
    ensures reset <= Max(now, 1000 * Seconds(reset)) <==> reset % 1000 == 0
  {
  }

  /**
   So is Retry-After: a client that waits exactly as long is admitted if and only if the
   time to the reset is a whole number of seconds.
   */
  lemma RetryAfterHonestIff(reqs: seq<Req>, n: nat, stamp: int, max: nat, window: int)
    requires InOrder(reqs) && n < |reqs| && RejectedFrom(reqs, n, max, window) && window > 0 && Roomy(max, window)
    ensures var v := VerdictOn(reqs[..n], reqs[n], max, window);
            var back := reqs[n].now + 1000 * v.retryAfter;
            Clock(reqs) <= back ==>
              (VerdictOn(reqs, Req(back, stamp), max, window).admitted <==> (v.nextReset - reqs[n].now) % 1000 == 0)
  {
    hide VerdictOn, InOrder, Seconds, Max;
    var back := reqs[n].now + 1000 * VerdictOn(reqs[..n], reqs[n], max, window).retryAfter;
    if Clock(reqs) <= back { ResetExact(reqs, n, Req(back, stamp), max, window); }
    PrefixOrder(reqs, n);
    ResetAhead(reqs[..n], reqs[n], max, window);
    Headers(reqs[..n], reqs[n], max, window);
    WaitedSeconds(reqs[n].now, VerdictOn(reqs[..n], reqs[n], max, window).nextReset);
  }

  lemma WaitedSeconds(now: int, reset: int)
    requires now < reset
    ensures reset <= now + 1000 * Max(Seconds(reset - now), 0) <==> (reset - now) % 1000 == 0
  {
  }
}
