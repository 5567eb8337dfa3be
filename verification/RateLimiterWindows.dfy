/** Window bounds for interleaved requests, and the expiry race that limits them. */
module RateLimiterWindows {
  import opened Bank
  import opened RateLimiter
  import opened RateLimiterRuns
  import opened RateLimiterInterleaved

  /** The clock reaches the key's deadline. */
  predicate Lapses(s: State, l: Label) {
    l.Tick? && s.z.deadline.Some? && s.z.deadline.value <= l.time
  }

  /** The key lapses although some member is younger than the window. */
  predicate YoungLapse(s: State, l: Label, window: int) {
    Lapses(s, l) && exists m :: m in s.z.members && l.time < m + window
  }

  ghost predicate NoYoungLapse(ls: seq<Label>, max: int, window: int)
    requires Run(INITIAL, ls, max, window).Some?
    decreases |ls|
  {
    ls != [] ==>
      && NoYoungLapse(ls[..|ls| - 1], max, window)
      && !YoungLapse(Run(INITIAL, ls[..|ls| - 1], max, window).value, ls[|ls| - 1], window)
  }

  /** Stamps drawn by requests that are about to add them. */
  function Drawn(s: State): set<int> {
    set r | r in s.reqs && s.reqs[r].Stamped? :: s.reqs[r].stamp
  }

  /** Every admitted stamp of the last window is still in the set. */
  ghost predicate NothingLost(s: State, window: int) {
    forall a :: a in s.admitted && s.clock - window < a ==> a in s.z.members
  }

  ghost predicate TimesOk(s: State) {
    && s.clock >= 0
    && (forall a :: a in s.admitted ==> 0 <= a <= s.clock)
    && (forall r :: r in s.reqs && s.reqs[r].Arrived? ==> s.reqs[r].now <= s.clock)
    && (forall r :: r in s.reqs && s.reqs[r].Counting? ==> s.reqs[r].now <= s.clock)
    && (forall r :: r in s.reqs && s.reqs[r].Stamped? ==> 0 <= s.reqs[r].stamp <= s.clock)
    && s.z.members <= s.admitted
  }

  lemma TimesStep(s: State, l: Label, max: int, window: int)
    requires TimesOk(s) && Next(s, l, max, window).Some?
    ensures TimesOk(Next(s, l, max, window).value)
  {
  }

  /** A lapse of the key loses a live stamp exactly when some member is younger than the window. */
  lemma LapseLosesIff(s: State, time: int, max: int, window: int)
    requires TimesOk(s) && NothingLost(s, window) && Lapses(s, Tick(time)) && time >= s.clock
    ensures NothingLost(Next(s, Tick(time), max, window).value, window) <==> !YoungLapse(s, Tick(time), window)
  {
    var s' := Next(s, Tick(time), max, window).value;
    forall a | a in s.admitted && time - window < a
      ensures a in s.z.members
    {
    }
    if m :| m in s.z.members && time < m + window {
      assert m in s.admitted;
    }
  }

  /** No other step loses one. */
  lemma LostStep(s: State, l: Label, max: int, window: int)
    requires TimesOk(s) && NothingLost(s, window) && Next(s, l, max, window).Some?
    ensures NothingLost(Next(s, l, max, window).value, window) <==> !YoungLapse(s, l, window)
  {
    if Lapses(s, l) { LapseLosesIff(s, l.time, max, window); }
  }

  /** At every moment of the run the set holds every admitted stamp of the last window. */
  ghost predicate NeverLost(ls: seq<Label>, max: int, window: int)
    requires Run(INITIAL, ls, max, window).Some?
    decreases |ls|
  {
    && NothingLost(Run(INITIAL, ls, max, window).value, window)
    && (ls != [] ==> NeverLost(ls[..|ls| - 1], max, window))
  }

  lemma {:induction false} RunTimes(ls: seq<Label>, max: int, window: int)
    requires Run(INITIAL, ls, max, window).Some?
    ensures TimesOk(Run(INITIAL, ls, max, window).value)
    decreases |ls|
  {
    if ls != [] {
      RunTimes(ls[..|ls| - 1], max, window);
      TimesStep(Run(INITIAL, ls[..|ls| - 1], max, window).value, ls[|ls| - 1], max, window);
    }
  }

  /** A run never loses a stamp that still counts if and only if its key never lapses with a young member. */
  lemma {:induction false} NeverLostIff(ls: seq<Label>, max: int, window: int)
    requires Run(INITIAL, ls, max, window).Some?
    ensures NeverLost(ls, max, window) <==> NoYoungLapse(ls, max, window)
    decreases |ls|
  {
    if ls != [] {
      var rest := ls[..|ls| - 1];
      NeverLostIff(rest, max, window);
      RunTimes(rest, max, window);
      if NeverLost(rest, max, window) {
        LostStep(Run(INITIAL, rest, max, window).value, ls[|ls| - 1], max, window);
      }
    }
  }

  /** Admitted or about to be. */
  function Claimed(s: State): set<int> {
    s.admitted + Drawn(s)
  }

  ghost predicate WindowsBounded(s: State, max: int, window: int, k: nat) {
    forall end :: |InWindow(Claimed(s), end, window)| <= Max(max + k, 0)
  }

  lemma {:induction false} ImageSize(s: State, rs: set<nat>)
    requires forall r :: r in rs ==> r in s.reqs && s.reqs[r].Stamped?
    ensures |set r | r in rs :: s.reqs[r].stamp| <= |rs|
    decreases |rs|
  {
    if rs != {} {
      var r :| r in rs;
      var rest := rs - {r};
      ImageSize(s, rest);
      assert (set q | q in rs :: s.reqs[q].stamp) == (set q | q in rest :: s.reqs[q].stamp) + {s.reqs[r].stamp};
    }
  }

  lemma DrawnSize(s: State)
    ensures |Drawn(s)| <= |Through(s)|
  {
    var rs := set r | r in s.reqs && s.reqs[r].Stamped?;
    ImageSize(s, rs);
    assert Drawn(s) == set r | r in rs :: s.reqs[r].stamp;
    SubsetSize(rs, Through(s));
  }

  /** The window that ends now: whatever it holds is in the set or about to be added. */
  lemma CurrentWindow(s: State, max: int, window: int, k: nat)
    requires TimesOk(s) && NothingLost(s, window) && Bounded(s, max, k)
    ensures |InWindow(Claimed(s), s.clock, window)| <= Max(max + k, 0)
  {
    DrawnSize(s);
    var held := s.z.members + Drawn(s);
    SubsetSize(InWindow(Claimed(s), s.clock, window), held);
  }

  /** Which stamps are claimed: only drawing one adds to them, and it is the present time. */
  lemma ClaimedStep(s: State, l: Label, max: int, window: int)
    requires Next(s, l, max, window).Some?
    ensures Claimed(Next(s, l, max, window).value) == if l.Draw? then Claimed(s) + {s.clock} else Claimed(s)
  {
    var s' := Next(s, l, max, window).value;
    forall a
      ensures a in Claimed(s') <==> a in (if l.Draw? then Claimed(s) + {s.clock} else Claimed(s))
    {
      if a in Drawn(s) {
        var r :| r in s.reqs && s.reqs[r].Stamped? && s.reqs[r].stamp == a;
        if !(l.ZAdd? && l.r == r) { assert r in s'.reqs && s'.reqs[r] == s.reqs[r]; }
      }
      if l.Draw? { assert s'.reqs[l.r] == Stamped(s.clock); }
      if a in Drawn(s') {
        var r :| r in s'.reqs && s'.reqs[r].Stamped? && s'.reqs[r].stamp == a;
        if !(l.Draw? && l.r == r) { assert r in s.reqs && s.reqs[r] == s'.reqs[r]; }
      }
    }
  }

  lemma WindowsStep(s: State, l: Label, max: int, window: int, k: nat)
    requires TimesOk(s) && NothingLost(s, window) && Next(s, l, max, window).Some? && window > 0
    requires Bounded(Next(s, l, max, window).value, max, k)
    requires WindowsBounded(s, max, window, k)
    ensures WindowsBounded(Next(s, l, max, window).value, max, window, k)
  {
    var s' := Next(s, l, max, window).value;
    ClaimedStep(s, l, max, window);
    if l.Draw? {
      TimesStep(s, l, max, window);
      LostStep(s, l, max, window);
      forall end
        ensures |InWindow(Claimed(s'), end, window)| <= Max(max + k, 0)
      {
        if end < s.clock {
          assert InWindow(Claimed(s'), end, window) == InWindow(Claimed(s), end, window);
        } else {
          assert InWindow(Claimed(s'), end, window) <= InWindow(Claimed(s'), s'.clock, window);
          SubsetSize(InWindow(Claimed(s'), end, window), InWindow(Claimed(s'), s'.clock, window));
          CurrentWindow(s', max, window, k);
        }
      }
    }
  }

  lemma {:induction false} RunWindows(ls: seq<Label>, max: int, window: int, k: nat)
    requires AtMost(INITIAL, ls, max, window, k) && window > 0 && NoYoungLapse(ls, max, window)
    ensures WindowsBounded(Run(INITIAL, ls, max, window).value, max, window, k)
    decreases |ls|
  {
    if ls == [] {
      assert Claimed(INITIAL) == {};
      forall end
        ensures InWindow(Claimed(INITIAL), end, window) == {}
      {
      }
    } else {
      var rest, l := ls[..|ls| - 1], ls[|ls| - 1];
      RunWindows(rest, max, window, k);
      RunTimes(rest, max, window);
      NeverLostIff(rest, max, window);
      SetBound(ls, max, window, k);
      WindowsStep(Run(INITIAL, rest, max, window).value, l, max, window, k);
    }
  }

  /**
   Main theorem. With at most k requests in flight, and no lapse of the key while a member
   is younger than the window, no window of this length, ending at any time, has more than
   max + k admitted stamps.
   */
  lemma InterleavedWindowBound(ls: seq<Label>, max: int, window: int, k: nat, end: int)
    requires AtMost(INITIAL, ls, max, window, k) && window > 0 && NoYoungLapse(ls, max, window)
    ensures |InWindow(Run(INITIAL, ls, max, window).value.admitted, end, window)| <= Max(max + k, 0)
  {
    RunWindows(ls, max, window, k);
    var s := Run(INITIAL, ls, max, window).value;
    SubsetSize(InWindow(s.admitted, end, window), InWindow(Claimed(s), end, window));
  }

  // ---- when the key lapses young ----

  /** No request is between adding its stamp and setting the expiry. */
  predicate NoneAdding(s: State) {
    forall r :: r in s.reqs ==> !s.reqs[r].Added?
  }

  /** The key never lapses while a request is between its ZADD and its EXPIRE. */
  ghost predicate Timely(ls: seq<Label>, max: int, window: int)
    requires Run(INITIAL, ls, max, window).Some?
    decreases |ls|
  {
    ls != [] ==>
      && Timely(ls[..|ls| - 1], max, window)
      && var m := Run(INITIAL, ls[..|ls| - 1], max, window).value;
         Lapses(m, ls[|ls| - 1]) ==> NoneAdding(m)
  }

  ghost predicate Adding(s: State, stamp: int) {
    exists r :: r in s.reqs && s.reqs[r] == Added(stamp)
  }

  /** A member can outlive the key only while its request has yet to set the expiry. */
  ghost predicate Guarded(s: State, window: int) {
    forall m :: m in s.z.members ==>
      (s.z.deadline.Some? && m + Lifetime(window) <= s.z.deadline.value) || Adding(s, m)
  }

  lemma GuardStep(s: State, l: Label, max: int, window: int)
    requires TimesOk(s) && Guarded(s, window) && Next(s, l, max, window).Some?
    ensures Guarded(Next(s, l, max, window).value, window)
  {
    hide Lifetime;
    var s' := Next(s, l, max, window).value;
    forall m | m in s'.z.members
      ensures (s'.z.deadline.Some? && m + Lifetime(window) <= s'.z.deadline.value) || Adding(s', m)
    {
      if l.SetExpiry? {
        assert m in s.admitted;
      } else if l.ZAdd? && m == s'.reqs[l.r].stamp {
        assert s'.reqs[l.r] == Added(m);
      } else {
        assert m in s.z.members;
        if Adding(s, m) {
          var r :| r in s.reqs && s.reqs[r] == Added(m);
          assert s'.reqs[r] == Added(m);
        }
      }
    }
  }

  lemma {:induction false} RunGuarded(ls: seq<Label>, max: int, window: int)
    requires Run(INITIAL, ls, max, window).Some?
    ensures Guarded(Run(INITIAL, ls, max, window).value, window)
    decreases |ls|
  {
    if ls != [] {
      RunGuarded(ls[..|ls| - 1], max, window);
      RunTimes(ls[..|ls| - 1], max, window);
      GuardStep(Run(INITIAL, ls[..|ls| - 1], max, window).value, ls[|ls| - 1], max, window);
    }
  }

  /**
   For windows that the key outlives, only one thing makes it lapse young: the clock passes
   its deadline while a request is between its ZADD and its EXPIRE.
   */
  lemma {:induction false} TimelySuffices(ls: seq<Label>, max: int, window: int)
    requires Run(INITIAL, ls, max, window).Some? && window > 0 && Whole(window) && Timely(ls, max, window)
    ensures NoYoungLapse(ls, max, window)
    decreases |ls|
  {
    if ls != [] {
      var rest, l := ls[..|ls| - 1], ls[|ls| - 1];
      var m := Run(INITIAL, rest, max, window).value;
      TimelySuffices(rest, max, window);
      RunGuarded(rest, max, window);
      LifetimeIs(window);
      forall x | Lapses(m, l) && x in m.z.members
        ensures x + window <= l.time
      {
        assert !Adding(m, x);
      }
    }
  }
}
