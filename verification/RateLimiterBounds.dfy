/** How many requests the limiter admits in a window, and what the expiry of its key has to do with it. */
module RateLimiterBounds {
  import opened Bank
  import opened RateLimiter
  import opened RateLimiterRuns

  /** Configurations in which a lapse of the key never makes room for more than one over the limit. */
  predicate Roomy(max: int, window: int) {
    Whole(window) || max < 0 || window % 1000 <= max
  }

  /** The window that ends with a newly admitted stamp. */
  lemma NewStamp(served: set<int>, g: int, r: Req, max: int, window: int)
    requires Gap(served, g, r.now, window) && 0 <= r.now <= r.stamp && window > 0 && Roomy(max, window)
    requires |Recent(served, g, r.now, window)| <= max
    ensures |InWindow(served + {r.stamp}, r.stamp, window)| <= max + 1
  {
    LifetimeIs(window);
    hide Lifetime;
    if r.stamp - window < g {
      GapCount(served + {r.stamp}, g, r.stamp, window);
    } else {
      SubsetSize(InWindow(served + {r.stamp}, r.stamp, window), Recent(served, g, r.now, window) + {r.stamp});
    }
  }

  /** A window that one more stamp falls into is covered by the one that ends with the stamp. */
  lemma WindowMore(served: set<int>, r: Req, window: int, end: int)
    requires forall s :: s in served ==> s <= r.stamp
    ensures if end - window < r.stamp <= end
            then |InWindow(served + {r.stamp}, end, window)| <= |InWindow(served + {r.stamp}, r.stamp, window)|
            else InWindow(served + {r.stamp}, end, window) == InWindow(served, end, window)
  {
    if end - window < r.stamp <= end {
      SubsetSize(InWindow(served + {r.stamp}, end, window), InWindow(served + {r.stamp}, r.stamp, window));
    }
  }

  /** Main bound: no window of this length ever has more than max + 1 stamps that the middleware admitted. */
  lemma {:induction false} WindowBound(reqs: seq<Req>, max: int, window: int, end: int)
    requires InOrder(reqs) && window > 0 && Roomy(max, window)
    ensures |InWindow(Served(reqs, max, window), end, window)| <= Max(max + 1, 0)
    decreases |reqs|
  {
    if reqs != [] {
      var rest, r := reqs[..|reqs| - 1], reqs[|reqs| - 1];
      WindowBound(rest, max, window, end);
      if rest != [] { assert rest[|rest| - 1] == reqs[|reqs| - 2]; }
      var g := RunView(rest, r.now, max, window);
      if VerdictOn(rest, r, max, window).admitted {
        NewStamp(Served(rest, max, window), g, r, max, window);
        WindowMore(Served(rest, max, window), r, window, end);
      }
    }
  }

  ghost predicate AlwaysBounded(max: int, window: int) {
    forall reqs, end :: InOrder(reqs) ==> |InWindow(Served(reqs, max, window), end, window)| <= Max(max + 1, 0)
  }

  /** The bound holds for all runs in exactly these configurations. */
  lemma WindowBoundIff(max: int, window: int)
    requires window > 0
    ensures AlwaysBounded(max, window) <==> Roomy(max, window)
  {
    if Roomy(max, window) {
      forall reqs, end | InOrder(reqs)
        ensures |InWindow(Served(reqs, max, window), end, window)| <= Max(max + 1, 0)
      {
        WindowBound(reqs, max, window, end);
      }
    } else {
      var reqs, end := Overfull(max, window);
    }
  }

  /** Stamps up to one over the limit, a silence in which the key lapses, and one more. */
  lemma Overfull(max: int, window: int) returns (reqs: seq<Req>, end: int)
    requires window > 0 && !Roomy(max, window)
    ensures InOrder(reqs) && |InWindow(Served(reqs, max, window), end, window)| == max + 2 > Max(max + 1, 0)
  {
    end := Silence(max + 1, max, window);
    hide EachMillisecond, Served, VerdictOn, Admitted;
    var before := EachMillisecond(max + 1);
    OneMore(before, Req(end, end), max, window);
    reqs := before + [Req(end, end)];
    var served := Served(before, max, window);
    assert InWindow(served + {end}, end, window) == InWindow(served, end, window) + {end};
  }

  /** The bound is reached: the request after the limit is still admitted, in every configuration. */
  lemma OneOverTheLimit(n: nat, max: nat, window: int)
    requires n <= max + 1 && n <= window && window > 0
    ensures InOrder(EachMillisecond(n))
    ensures |InWindow(Served(EachMillisecond(n), max, window), n - 1, window)| == n
  {
    MillisecondOrder(n);
    MillisecondRun(n, max, window);
    assert InWindow(Stamps(0, n), n - 1, window) == Stamps(0, n);
  }

  /** n requests in one millisecond. */
  function SameMillisecond(n: nat): seq<Req> {
    seq(n, i => Req(0, 0))
  }

  lemma SameMore(n: nat)
    ensures SameMillisecond(n + 1) == SameMillisecond(n) + [Req(0, 0)]
  {
  }

  lemma {:induction false} SameKey(n: nat, max: int, window: int)
    requires max >= 1 && window > 0
    ensures After(SameMillisecond(n), max, window) == if n == 0 then NO_KEY else ZSet({0}, Some(Lifetime(window)))
    decreases n
  {
    if n > 0 {
      hide After, Handle, SameMillisecond, Lifetime;
      SameKey(n - 1, max, window);
      SameMore(n - 1);
      OneMore(SameMillisecond(n - 1), Req(0, 0), max, window);
      StampZero(max, window);
    } else {
      assert SameMillisecond(0) == [];
    }
  }

  lemma SamePasses(n: nat, max: int, window: int)
    requires max >= 1 && window > 0
    ensures VerdictOn(SameMillisecond(n), Req(0, 0), max, window).admitted
  {
    hide After, Handle, SameMillisecond, Lifetime;
    SameKey(n, max, window);
    StampZero(max, window);
  }

  lemma {:induction false} SameServed(n: nat, max: int, window: int)
    requires max >= 1 && window > 0
    ensures Served(SameMillisecond(n), max, window) == if n == 0 then {} else {0}
    decreases n
  {
    if n > 0 {
      hide VerdictOn, Served, SameMillisecond;
      SameServed(n - 1, max, window);
      SamePasses(n - 1, max, window);
      SameMore(n - 1);
      OneMore(SameMillisecond(n - 1), Req(0, 0), max, window);
    } else {
      assert SameMillisecond(0) == [];
    }
  }

  /** Requests are counted by distinct stamps: any number in one millisecond is admitted. */
  lemma SameMillisecondAdmitted(n: nat, max: int, window: int)
    requires max >= 1 && window > 0
    ensures InOrder(SameMillisecond(n))
    ensures VerdictOn(SameMillisecond(n), Req(0, 0), max, window).admitted
    ensures |Served(SameMillisecond(n), max, window)| <= 1
  {
    SamePasses(n, max, window);
    SameServed(n, max, window);
  }

  lemma StampZero(max: int, window: int)
    requires max >= 1 && window > 0
    ensures var z := ZSet({0}, Some(Lifetime(window)));
            && Handle(NO_KEY, 0, 0, max, window).0 == z && Handle(NO_KEY, 0, 0, max, window).1.admitted
            && Handle(z, 0, 0, max, window).0 == z && Handle(z, 0, 0, max, window).1.admitted
  {
    LifetimeIs(window);
    hide Lifetime;
    assert {} - InRangeOf({}, 0, 0 - window) == {};
    assert {0} - InRangeOf({0}, 0, 0 - window) == {0};
  }

  /** A negative limit admits nothing. */
  lemma {:induction false} NegativeLimit(reqs: seq<Req>, max: int, window: int)
    requires max < 0
    ensures Served(reqs, max, window) == {}
    decreases |reqs|
  {
    if reqs != [] { NegativeLimit(reqs[..|reqs| - 1], max, window); }
  }

  /** The store looks the same to every request whether or not its key could expire. */
  ghost predicate ExpiryUnseen(max: int, window: int) {
    forall reqs, now :: InOrder(reqs) && Clock(reqs) <= now ==>
      View(After(reqs, max, window), now, window) == Purge(After(reqs, max, window), now - window)
  }

  lemma ExpiryInvisible(reqs: seq<Req>, now: int, max: int, window: int)
    requires InOrder(reqs) && Clock(reqs) <= now && window > 0 && (Whole(window) || max < 0)
    ensures View(After(reqs, max, window), now, window) == Purge(After(reqs, max, window), now - window)
  {
    var g := RunLog(reqs, max, window);
    LifetimeIs(window);
    if max < 0 { NegativeLimit(reqs, max, window); }
    var z := After(reqs, max, window);
    hide Lifetime, After, Served;
    if Seen(z, now) != z {
      assert forall m :: m in z.members ==> 0 <= m <= now - window;
      assert z.members - InRangeOf(z.members, 0, now - window) == {};
      assert NO_KEY.members - InRangeOf(NO_KEY.members, 0, now - window) == {};
    }
  }

  /** The expiry is invisible exactly when the key outlives the window, or nothing is ever admitted. */
  lemma ExpiryInvisibleIff(max: int, window: int)
    requires window > 0
    ensures ExpiryUnseen(max, window) <==> Whole(window) || max < 0
  {
    if Whole(window) || max < 0 {
      forall reqs, now | InOrder(reqs) && Clock(reqs) <= now
        ensures View(After(reqs, max, window), now, window) == Purge(After(reqs, max, window), now - window)
      {
        ExpiryInvisible(reqs, now, max, window);
      }
    } else {
      var t := Silence(1, max, window);
      MillisecondAfter(1, max, window);
      LifetimeIs(window);
      OrderedBefore(EachMillisecond(1), Req(t, t));
      hide Lifetime, EachMillisecond, After;
      assert 0 in Stamps(0, 1);
      PurgeNothing(MillisecondKey(1, window), t - window);
      assert Purge(After(EachMillisecond(1), max, window), t - window) != NO_KEY;
    }
  }
}
