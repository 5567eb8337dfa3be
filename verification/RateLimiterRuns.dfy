/** What the limiter does over every sequence of requests on one key. */
module RateLimiterRuns {
  import opened Bank
  import opened RateLimiter
  import Sums

  /** When a request read the clock for its window, and when for its stamp. */
  datatype Req = Req(now: int, stamp: int)

  /** Requests come one after the other on one clock. */
  predicate InOrder(reqs: seq<Req>) {
    && (forall i :: 0 <= i < |reqs| ==> 0 <= reqs[i].now <= reqs[i].stamp)
    && (forall i :: 0 < i < |reqs| ==> reqs[i - 1].stamp <= reqs[i].now)
  }

  function InWindow(stamps: set<int>, end: int, window: int): set<int> {
    set s | s in stamps && end - window < s <= end
  }

  /** The specification: the stamps that are to be admitted, with no sorted set and no expiry. */
  function Admitted(reqs: seq<Req>, max: int, window: int): set<int>
    decreases |reqs|
  {
    if reqs == [] then {}
    else
      var before := Admitted(reqs[..|reqs| - 1], max, window);
      var r := reqs[|reqs| - 1];
      if |InWindow(before, r.now, window)| <= max then before + {r.stamp} else before
  }

  /** The specification's decision on one more request. */
  function Allows(reqs: seq<Req>, now: int, max: int, window: int): bool {
    |InWindow(Admitted(reqs, max, window), now, window)| <= max
  }

  /** The key after all requests were handled. */
  function After(reqs: seq<Req>, max: int, window: int): ZSet
    decreases |reqs|
  {
    if reqs == [] then NO_KEY
    else
      var r := reqs[|reqs| - 1];
      Handle(After(reqs[..|reqs| - 1], max, window), r.now, r.stamp, max, window).0
  }

  /** The middleware's verdict on one more request. */
  function VerdictOn(reqs: seq<Req>, r: Req, max: int, window: int): Verdict {
    Handle(After(reqs, max, window), r.now, r.stamp, max, window).1
  }

  /** The stamps that the middleware did admit. */
  function Served(reqs: seq<Req>, max: int, window: int): set<int>
    decreases |reqs|
  {
    if reqs == [] then {}
    else
      var rest, r := reqs[..|reqs| - 1], reqs[|reqs| - 1];
      if VerdictOn(rest, r, max, window).admitted then Served(rest, max, window) + {r.stamp} else Served(rest, max, window)
  }

  /** The time of the last request. */
  function Clock(reqs: seq<Req>): int {
    if reqs == [] then 0 else reqs[|reqs| - 1].stamp
  }

  /** The key of such a window outlives every member. */
  predicate Whole(window: int) {
    window < 1000 || window % 1000 == 0
  }

  lemma LifetimeIs(window: int)
    requires window > 0
    ensures Lifetime(window) >= 1000
    ensures Whole(window) ==> Lifetime(window) >= window
    ensures !Whole(window) ==> Lifetime(window) == window - window % 1000
  {
  }

  // ---- what the key remembers ----

  /**
   `g` is the last stamp that was lost when the key lapsed: no admitted stamp lies within
   a lifetime of the key after it.
   */
  ghost predicate Gap(served: set<int>, g: int, clock: int, window: int) {
    && g + Lifetime(window) <= clock
    && (forall s :: s in served ==> 0 <= s <= clock)
    && (forall s :: s in served && g < s ==> g + Lifetime(window) <= s)
  }

  /** The key holds every admitted stamp of the last window after `g`, and outlives each by its lifetime. */
  ghost predicate Log(z: ZSet, served: set<int>, g: int, clock: int, window: int) {
    && Gap(served, g, clock, window)
    && z.members <= served
    && (forall s :: s in served && g < s && clock - window < s ==> s in z.members)
    && (forall m :: m in z.members ==> g < m)
    && (z.members != {} ==> z.deadline.Some? && forall s :: s in served ==> s + Lifetime(window) <= z.deadline.value)
  }

  function Recent(served: set<int>, g: int, now: int, window: int): set<int> {
    set s | s in InWindow(served, now, window) && g < s
  }

  /** Time passes; if the key lapses, everything up to its last renewal is lost. */
  lemma SeenLog(z: ZSet, served: set<int>, g: int, clock: int, now: int, window: int) returns (g': int)
    requires Log(z, served, g, clock, window) && clock <= now
    ensures Log(Seen(z, now), served, g', now, window)
  {
    hide Lifetime;
    g' := if Seen(z, now) != z && z.members != {} then z.deadline.value - Lifetime(window) else g;
  }

  lemma PurgeLog(z: ZSet, served: set<int>, g: int, now: int, window: int)
    requires Log(z, served, g, now, window)
    ensures Log(Purge(z, now - window), served, g, now, window)
    ensures Purge(z, now - window).members == Recent(served, g, now, window)
  {
    hide Lifetime;
    var left := Purge(z, now - window);
    assert left.members == z.members - InRangeOf(z.members, 0, now - window);
    assert left.members != {} ==> left.deadline == z.deadline;
  }

  lemma AddLog(z: ZSet, served: set<int>, g: int, stamp: int, window: int)
    requires Log(z, served, g, stamp, window) && 0 <= stamp && window > 0
    ensures Log(WithExpiry(Add(z, stamp), stamp, window), served + {stamp}, g, stamp, window)
  {
    LifetimeIs(window);
    hide Lifetime;
    assert stamp in Add(z, stamp).members;
  }

  lemma LaterLog(z: ZSet, served: set<int>, g: int, clock: int, later: int, window: int)
    requires Log(z, served, g, clock, window) && clock <= later
    ensures Log(z, served, g, later, window)
  {
    hide Lifetime;
  }

  /** One request: `g1` is the loss that it sees, `g2` the one that it leaves. */
  lemma HandleLog(z: ZSet, served: set<int>, g: int, clock: int, r: Req, max: int, window: int) returns (g1: int, g2: int)
    requires Log(z, served, g, clock, window) && 0 <= clock <= r.now <= r.stamp && window > 0
    ensures Gap(served, g1, r.now, window)
    ensures View(z, r.now, window).members == Recent(served, g1, r.now, window)
    ensures var (z', verdict) := Handle(z, r.now, r.stamp, max, window);
            Log(z', if verdict.admitted then served + {r.stamp} else served, g2, r.stamp, window)
  {
    hide Log, Purge, Seen, Add, WithExpiry, Recent;
    g1 := SeenLog(z, served, g, clock, r.now, window);
    PurgeLog(Seen(z, r.now), served, g1, r.now, window);
    assert Gap(served, g1, r.now, window) by { LogHasGap(Seen(z, r.now), served, g1, r.now, window); }
    if Handle(z, r.now, r.stamp, max, window).1.admitted {
      g2 := SeenLog(View(z, r.now, window), served, g1, r.now, r.stamp, window);
      AddLog(Seen(View(z, r.now, window), r.stamp), served, g2, r.stamp, window);
    } else {
      g2 := g1;
      LaterLog(View(z, r.now, window), served, g1, r.now, r.stamp, window);
    }
  }

  lemma LogHasGap(z: ZSet, served: set<int>, g: int, clock: int, window: int)
    requires Log(z, served, g, clock, window)
    ensures Gap(served, g, clock, window)
  {
  }

  /** Before a run the last loss is a lifetime ago. */
  lemma {:induction false} RunLog(reqs: seq<Req>, max: int, window: int) returns (g: int)
    requires InOrder(reqs) && window > 0
    ensures Log(After(reqs, max, window), Served(reqs, max, window), g, Clock(reqs), window)
    ensures Clock(reqs) >= 0
    decreases |reqs|
  {
    if reqs == [] {
      g := -Lifetime(window);
    } else {
      var rest, r := reqs[..|reqs| - 1], reqs[|reqs| - 1];
      var g0 := RunLog(rest, max, window);
      if rest != [] { assert rest[|rest| - 1] == reqs[|reqs| - 2]; }
      var g1;
      g1, g := HandleLog(After(rest, max, window), Served(rest, max, window), g0, Clock(rest), r, max, window);
    }
  }

  /** What the next request finds after a run. */
  lemma RunView(reqs: seq<Req>, now: int, max: int, window: int) returns (g: int)
    requires InOrder(reqs) && Clock(reqs) <= now && window > 0
    ensures Gap(Served(reqs, max, window), g, now, window)
    ensures View(After(reqs, max, window), now, window).members == Recent(Served(reqs, max, window), g, now, window)
  {
    var g0 := RunLog(reqs, max, window);
    var g2;
    g, g2 := HandleLog(After(reqs, max, window), Served(reqs, max, window), g0, Clock(reqs), Req(now, now), max, window);
  }

  lemma SubsetSize(x: set<int>, y: set<int>)
    requires x <= y
    ensures |x| <= |y|
  {
    Sums.SubsetNotLarger(x, y);
  }

  /** The stamps of `n` successive milliseconds. */
  function Stamps(from: int, n: nat): (r: set<int>)
    ensures forall s :: s in r <==> from <= s < from + n
    ensures |r| == n
  {
    if n == 0 then {} else Stamps(from, n - 1) + {from + n - 1}
  }

  /** With a loss in the window, little room is left for admitted stamps: on both sides of the silence. */
  lemma GapCount(served: set<int>, g: int, end: int, window: int)
    requires Gap(served, g, end, window) && window > 0 && end - window < g
    ensures !Whole(window) && |InWindow(served, end, window)| <= window % 1000 + 1
  {
    LifetimeIs(window);
    hide Lifetime, Stamps;
    var before := Stamps(end - window + 1, g - (end - window));
    var since := Stamps(g + Lifetime(window), end - g - Lifetime(window) + 1);
    SubsetSize(InWindow(served, end, window), before + since);
  }

  // ---- the middleware against its specification ----

  /** Configurations in which no loss can matter for a decision. */
  predicate Faithful(max: int, window: int) {
    Whole(window) || max < 0 || window % 1000 < max
  }

  lemma SameDecision(served: set<int>, g: int, now: int, max: int, window: int)
    requires Gap(served, g, now, window) && window > 0 && Faithful(max, window)
    ensures |Recent(served, g, now, window)| <= max <==> |InWindow(served, now, window)| <= max
  {
    if now - window < g {
      GapCount(served, g, now, window);
      SubsetSize(Recent(served, g, now, window), InWindow(served, now, window));
    } else {
      assert Recent(served, g, now, window) == InWindow(served, now, window);
    }
  }

  lemma {:induction false} ServedIsAdmitted(reqs: seq<Req>, max: int, window: int)
    requires InOrder(reqs) && window > 0 && Faithful(max, window)
    ensures Served(reqs, max, window) == Admitted(reqs, max, window)
    decreases |reqs|
  {
    if reqs != [] {
      var rest, r := reqs[..|reqs| - 1], reqs[|reqs| - 1];
      ServedIsAdmitted(rest, max, window);
      if rest != [] { assert rest[|rest| - 1] == reqs[|reqs| - 2]; }
      var g := RunView(rest, r.now, max, window);
      SameDecision(Served(rest, max, window), g, r.now, max, window);
    }
  }

  lemma OrderedBefore(reqs: seq<Req>, next: Req)
    requires InOrder(reqs + [next])
    ensures InOrder(reqs) && Clock(reqs) <= next.now <= next.stamp
  {
    forall i | 0 <= i < |reqs|
      ensures 0 <= reqs[i].now <= reqs[i].stamp && (i > 0 ==> reqs[i - 1].stamp <= reqs[i].now)
    {
      assert (reqs + [next])[i] == reqs[i];
      if i > 0 { assert (reqs + [next])[i - 1] == reqs[i - 1]; }
    }
    assert (reqs + [next])[|reqs|] == next;
    if reqs != [] { assert (reqs + [next])[|reqs| - 1] == reqs[|reqs| - 1]; }
  }

  /**
   Main refinement. After any requests, the middleware admits the next one exactly when
   at most `max` admitted stamps lie in the window that ends now. No expiry shows.
   */
  lemma LimiterRefines(reqs: seq<Req>, next: Req, max: int, window: int)
    requires InOrder(reqs + [next]) && window > 0 && Faithful(max, window)
    ensures VerdictOn(reqs, next, max, window).admitted == Allows(reqs, next.now, max, window)
    ensures Served(reqs, max, window) == Admitted(reqs, max, window)
  {
    OrderedBefore(reqs, next);
    ServedIsAdmitted(reqs, max, window);
    var g := RunView(reqs, next.now, max, window);
    SameDecision(Served(reqs, max, window), g, next.now, max, window);
  }

  /** Agreement for all requests. */
  ghost predicate AlwaysAgrees(max: int, window: int) {
    forall reqs, next :: InOrder(reqs + [next]) ==>
      VerdictOn(reqs, next, max, window).admitted == Allows(reqs, next.now, max, window)
  }

  /** The middleware meets its specification in exactly these configurations. */
  lemma RefinesIff(max: int, window: int)
    requires window > 0
    ensures AlwaysAgrees(max, window) <==> Faithful(max, window)
  {
    if Faithful(max, window) {
      forall reqs, next | InOrder(reqs + [next])
        ensures VerdictOn(reqs, next, max, window).admitted == Allows(reqs, next.now, max, window)
      {
        LimiterRefines(reqs, next, max, window);
      }
    } else {
      var reqs, next := Disagreement(max, window);
    }
  }

  /** One request in each of the milliseconds 0, 1, ..., n - 1. */
  function EachMillisecond(n: nat): seq<Req> {
    seq(n, i => Req(i, i))
  }

  lemma PurgeNothing(z: ZSet, windowStart: int)
    requires windowStart < 0 && z.members != {}
    ensures Purge(z, windowStart) == z
  {
    assert z.members - InRangeOf(z.members, 0, windowStart) == z.members;
  }

  /** The key after the stamps 0, 1, ..., n - 1. */
  function MillisecondKey(n: nat, window: int): ZSet {
    if n == 0 then NO_KEY else ZSet(Stamps(0, n), Some(n - 1 + Lifetime(window)))
  }

  lemma MillisecondView(n: nat, window: int)
    requires n < window
    ensures View(MillisecondKey(n, window), n, window) == MillisecondKey(n, window)
    ensures Seen(MillisecondKey(n, window), n) == MillisecondKey(n, window)
    ensures |MillisecondKey(n, window).members| == n
  {
    LifetimeIs(window);
    if n == 0 {
      assert NO_KEY.members - InRangeOf(NO_KEY.members, 0, n - window) == {};
    } else {
      assert 0 in Stamps(0, n);
      PurgeNothing(MillisecondKey(n, window), n - window);
    }
  }

  lemma MillisecondHandle(n: nat, max: nat, window: int)
    requires n <= max && n < window
    ensures Handle(MillisecondKey(n, window), n, n, max, window).0 == MillisecondKey(n + 1, window)
    ensures Handle(MillisecondKey(n, window), n, n, max, window).1.admitted
  {
    MillisecondView(n, window);
    assert Stamps(0, n + 1) == Stamps(0, n) + {n};
    hide Lifetime, View, Seen;
  }

  lemma StampsMore(n: nat, window: int)
    requires n < window
    ensures Stamps(0, n + 1) == Stamps(0, n) + {n}
    ensures |InWindow(Stamps(0, n), n, window)| == n
  {
    assert InWindow(Stamps(0, n), n, window) == Stamps(0, n);
  }

  lemma MillisecondOrder(n: nat)
    ensures InOrder(EachMillisecond(n))
  {
  }

  lemma {:induction false} MillisecondAfter(n: nat, max: nat, window: int)
    requires n <= max + 1 && n <= window && window > 0
    ensures After(EachMillisecond(n), max, window) == MillisecondKey(n, window)
    decreases n
  {
    if n > 0 {
      hide MillisecondKey, Handle, After, EachMillisecond;
      MillisecondAfter(n - 1, max, window);
      MillisecondMore(n - 1);
      OneMore(EachMillisecond(n - 1), Req(n - 1, n - 1), max, window);
      MillisecondHandle(n - 1, max, window);
    } else {
      assert EachMillisecond(0) == [];
    }
  }

  /** They are all admitted, up to one more than the limit. */
  lemma {:induction false} MillisecondRun(n: nat, max: nat, window: int)
    requires n <= max + 1 && n <= window && window > 0
    ensures Served(EachMillisecond(n), max, window) == Stamps(0, n)
    ensures Admitted(EachMillisecond(n), max, window) == Stamps(0, n)
    decreases n
  {
    if n > 0 {
      hide MillisecondKey, Handle, After, Served, Admitted, InWindow, Stamps, EachMillisecond;
      MillisecondRun(n - 1, max, window);
      MillisecondMore(n - 1);
      OneMore(EachMillisecond(n - 1), Req(n - 1, n - 1), max, window);
      MillisecondAfter(n - 1, max, window);
      MillisecondHandle(n - 1, max, window);
      StampsMore(n - 1, window);
    } else {
      assert EachMillisecond(0) == [];
    }
  }

  lemma MillisecondMore(n: nat)
    ensures EachMillisecond(n + 1) == EachMillisecond(n) + [Req(n, n)]
  {
  }

  /** Once the key has lapsed, a request finds nothing. */
  lemma LapsedView(z: ZSet, now: int, window: int)
    requires z.deadline.Some? && z.deadline.value <= now
    ensures View(z, now, window) == NO_KEY
  {
    assert NO_KEY.members - InRangeOf(NO_KEY.members, 0, now - window) == {};
  }

  lemma OneMore(reqs: seq<Req>, r: Req, max: int, window: int)
    ensures After(reqs + [r], max, window) == Handle(After(reqs, max, window), r.now, r.stamp, max, window).0
    ensures Served(reqs + [r], max, window)
            == Served(reqs, max, window) + if VerdictOn(reqs, r, max, window).admitted then {r.stamp} else {}
    ensures Admitted(reqs + [r], max, window)
            == Admitted(reqs, max, window) + if Allows(reqs, r.now, max, window) then {r.stamp} else {}
  {
    assert (reqs + [r])[..|reqs + [r]| - 1] == reqs;
  }

  lemma Snoc(reqs: seq<Req>, r: Req)
    requires InOrder(reqs) && Clock(reqs) <= r.now <= r.stamp && 0 <= r.now
    ensures InOrder(reqs + [r])
    ensures (reqs + [r])[..|reqs + [r]| - 1] == reqs && (reqs + [r])[|reqs + [r]| - 1] == r && Clock(reqs + [r]) == r.stamp
  {
  }

  /** After a silence as long as the key lives, a request meets an empty set although the stamps still count. */
  lemma Silence(n: nat, max: nat, window: int) returns (t: int)
    requires window > 0 && !Whole(window) && 1 <= n <= max + 1 && n <= window % 1000
    ensures t == n - 1 + Lifetime(window)
    ensures InOrder(EachMillisecond(n) + [Req(t, t)])
    ensures View(After(EachMillisecond(n), max, window), t, window) == NO_KEY
    ensures VerdictOn(EachMillisecond(n), Req(t, t), max, window).admitted
    ensures Served(EachMillisecond(n), max, window) == Admitted(EachMillisecond(n), max, window)
    ensures InWindow(Admitted(EachMillisecond(n), max, window), t, window) == Admitted(EachMillisecond(n), max, window)
    ensures |Admitted(EachMillisecond(n), max, window)| == n && t !in Admitted(EachMillisecond(n), max, window)
  {
    LifetimeIs(window);
    hide Lifetime, Stamps;
    t := n - 1 + Lifetime(window);
    MillisecondOrder(n);
    MillisecondAfter(n, max, window);
    MillisecondRun(n, max, window);
    LapsedView(After(EachMillisecond(n), max, window), t, window);
    assert Clock(EachMillisecond(n)) == n - 1;
    Snoc(EachMillisecond(n), Req(t, t));
    assert InWindow(Stamps(0, n), t, window) == Stamps(0, n);
  }

  lemma Disagreement(max: int, window: int) returns (reqs: seq<Req>, next: Req)
    requires window > 0 && !Faithful(max, window)
    ensures InOrder(reqs + [next])
    ensures VerdictOn(reqs, next, max, window).admitted && !Allows(reqs, next.now, max, window)
  {
    LifetimeIs(window);
    var n := if max < window % 1000 then max + 1 else max;
    var t := Silence(n, max, window);
    reqs, next := EachMillisecond(n), Req(t, t);
    if n == max {
      reqs := DisagreementTwice(max, window, t);
    }
  }

  /** At the edge it takes a second request in the same millisecond. */
  lemma DisagreementTwice(max: nat, window: int, t: int) returns (reqs: seq<Req>)
    requires window > 0 && !Whole(window) && max == window % 1000 && t == max - 1 + Lifetime(window)
    ensures InOrder(reqs + [Req(t, t)])
    ensures VerdictOn(reqs, Req(t, t), max, window).admitted && !Allows(reqs, t, max, window)
  {
    var t' := Silence(max, max, window);
    hide EachMillisecond, After, Admitted, VerdictOn, Lifetime;
    var before := EachMillisecond(max);
    OneMoreAt(before, t, max, window);
    reqs := before + [Req(t, t)];
  }

  lemma OneMoreAt(before: seq<Req>, t: int, max: nat, window: int)
    requires InOrder(before + [Req(t, t)]) && max >= 1 && window > 0
    requires View(After(before, max, window), t, window) == NO_KEY
    requires InWindow(Admitted(before, max, window), t, window) == Admitted(before, max, window)
    requires |Admitted(before, max, window)| == max && t !in Admitted(before, max, window)
    ensures var reqs := before + [Req(t, t)];
            && InOrder(reqs + [Req(t, t)])
            && VerdictOn(reqs, Req(t, t), max, window).admitted && !Allows(reqs, t, max, window)
  {
    hide After, Admitted, VerdictOn;
    var r := Req(t, t);
    InOrderTwice(before, r);
    AfterLapse(before, r, max, window);
    OneMore(before, r, max, window);
    var admitted := Admitted(before, max, window);
    assert InWindow(admitted + {t}, t, window) == admitted + {t};
  }

  lemma InOrderTwice(before: seq<Req>, r: Req)
    requires InOrder(before + [r]) && r.now == r.stamp
    ensures InOrder(before + [r] + [r]) && r.now >= 0
  {
    OrderedBefore(before, r);
    assert (before + [r])[|before|] == r;
    Snoc(before, r);
    Snoc(before + [r], r);
  }

  lemma AfterLapse(reqs: seq<Req>, r: Req, max: int, window: int)
    requires max >= 1 && window > 0 && r.now == r.stamp && r.now >= 0
    requires View(After(reqs, max, window), r.now, window) == NO_KEY
    ensures After(reqs + [r], max, window) == ZSet({r.stamp}, Some(r.stamp + Lifetime(window)))
    ensures VerdictOn(reqs + [r], r, max, window).admitted
  {
    LifetimeIs(window);
    hide Lifetime;
    assert (reqs + [r])[..|reqs + [r]| - 1] == reqs;
    var z := ZSet({r.stamp}, Some(r.stamp + Lifetime(window)));
    assert After(reqs + [r], max, window) == z;
    assert View(z, r.now, window).members == {r.stamp};
  }
}
