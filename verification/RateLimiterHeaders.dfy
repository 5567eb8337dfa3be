/** The headers of every response, admitted or not, against the specification. */
module RateLimiterHeaders {
  import opened Bank
  import opened RateLimiter
  import opened RateLimiterRuns
  import opened RateLimiterBounds

  /** The headers tell how many admitted stamps the window that ends now holds, and when the first one leaves. */
  ghost predicate Told(v: Verdict, shown: set<int>, now: int, max: int, window: int) {
    && (v.admitted <==> |shown| <= max)
    && v.remaining == (if |shown| < max then max - |shown| else 0)
    && (shown == {} ==> v.nextReset == now + window)
    && (shown != {} ==> v.nextReset - window in shown && forall s :: s in shown ==> v.nextReset <= s + window)
    && 1000 * v.reset <= v.nextReset < 1000 * v.reset + 1000
    && (v.admitted ==> v.retryAfter == 0)
    && (!v.admitted ==> 1000 * v.retryAfter <= v.nextReset - now < 1000 * v.retryAfter + 1000)
  }

  /** With what a request finds. */
  lemma ViewTold(z: ZSet, now: int, stamp: int, max: int, window: int)
    requires 0 <= now && window > 0 && forall m :: m in View(z, now, window).members ==> 0 <= m && now - window < m
    ensures Told(Handle(z, now, stamp, max, window).1, View(z, now, window).members, now, max, window)
  {
    hide View, WithExpiry, Add, Seen;
  }

  /** For whole windows, what a request finds are exactly the admitted stamps of its window. */
  lemma HeadersExact(reqs: seq<Req>, r: Req, max: int, window: int)
    requires InOrder(reqs + [r]) && window > 0 && (Whole(window) || max < 0)
    ensures Told(VerdictOn(reqs, r, max, window), InWindow(Admitted(reqs, max, window), r.now, window), r.now, max, window)
  {
    OrderedBefore(reqs, r);
    LimiterRefines(reqs, r, max, window);
    assert (reqs + [r])[|reqs|] == r;
    var g := RunView(reqs, r.now, max, window);
    if max < 0 { NegativeLimit(reqs, max, window); }
    LifetimeIs(window);
    var served := Served(reqs, max, window);
    assert Recent(served, g, r.now, window) == InWindow(served, r.now, window);
    hide After, Served, Admitted, Handle, View, Told, Lifetime;
    ViewTold(After(reqs, max, window), r.now, r.stamp, max, window);
  }

  ghost predicate AlwaysTold(max: int, window: int) {
    forall reqs, r :: InOrder(reqs + [r]) ==>
      Told(VerdictOn(reqs, r, max, window), InWindow(Admitted(reqs, max, window), r.now, window), r.now, max, window)
  }

  /** The headers are right for all runs exactly when the key outlives the window, or nothing is ever admitted. */
  lemma HeadersIff(max: int, window: int)
    requires window > 0
    ensures AlwaysTold(max, window) <==> Whole(window) || max < 0
  {
    if Whole(window) || max < 0 {
      forall reqs, r | InOrder(reqs + [r])
        ensures Told(VerdictOn(reqs, r, max, window), InWindow(Admitted(reqs, max, window), r.now, window), r.now, max, window)
      {
        HeadersExact(reqs, r, max, window);
      }
    } else {
      var t := Silence(1, max, window);
      var reqs, r := EachMillisecond(1), Req(t, t);
      NothingTold(reqs, r, max, window);
    }
  }

  /** A request that finds nothing is told a reset time from now. */
  lemma NothingTold(reqs: seq<Req>, r: Req, max: int, window: int)
    requires View(After(reqs, max, window), r.now, window) == NO_KEY
    requires var shown := InWindow(Admitted(reqs, max, window), r.now, window); shown != {} && r.now !in shown
    ensures !Told(VerdictOn(reqs, r, max, window), InWindow(Admitted(reqs, max, window), r.now, window), r.now, max, window)
  {
    hide View, After, Admitted, InWindow, WithExpiry, Add, Seen;
    assert VerdictOn(reqs, r, max, window).nextReset == r.now + window;
  }
}
