/** Runs that reach the limiter's bounds, and the one that breaks the window bound. */
module RateLimiterExtremes {
  import opened Bank
  import opened RateLimiter
  import opened RateLimiterRuns
  import opened RateLimiterInterleaved
  import opened RateLimiterWindows
  import Sums

  /** A run of at most `k` requests at a time leads to `s`. */
  ghost predicate Reach(ls: seq<Label>, s: State, max: int, window: int, k: nat) {
    AtMost(INITIAL, ls, max, window, k) && Run(INITIAL, ls, max, window) == Some(s)
  }

  lemma Extend(ls: seq<Label>, s: State, l: Label, max: int, window: int, k: nat)
    requires Reach(ls, s, max, window, k) && Next(s, l, max, window).Some?
    requires |Next(s, l, max, window).value.reqs.Keys| <= k
    ensures Reach(ls + [l], Next(s, l, max, window).value, max, window, k)
  {
    assert (ls + [l])[..|ls + [l]| - 1] == ls;
  }

  lemma ReachStart(max: int, window: int, k: nat)
    ensures Reach([], INITIAL, max, window, k)
  {
  }

  lemma KeysBelow(s: State, k: nat)
    requires forall r :: r in s.reqs ==> r < k
    ensures |s.reqs.Keys| <= k
  {
    Sums.SubsetNotLarger(s.reqs.Keys, Sums.Numbers(k));
  }

  /** The next step of a run that uses request numbers below `k`. */
  lemma Step(ls: seq<Label>, s: State, l: Label, max: int, window: int, k: nat) returns (ls': seq<Label>, s': State)
    requires Reach(ls, s, max, window, k) && Next(s, l, max, window).Some?
    requires forall r :: r in Next(s, l, max, window).value.reqs ==> r < k
    ensures s' == Next(s, l, max, window).value && ls' == ls + [l] && Reach(ls', s', max, window, k)
  {
    KeysBelow(Next(s, l, max, window).value, k);
    Extend(ls, s, l, max, window, k);
    s' := Next(s, l, max, window).value;
    ls' := ls + [l];
  }

  /** The state at each step of one request alone. */
  lemma AloneStates(s: State, max: int, window: int)
    requires s.reqs == map[] && |Purge(s.z, s.clock - window).members| <= max
    ensures var z := Purge(s.z, s.clock - window);
            && Next(s, Arrive(0), max, window) == Some(s.(reqs := map[0 := Arrived(s.clock)]))
            && Next(s.(reqs := map[0 := Arrived(s.clock)]), PurgeOld(0), max, window)
               == Some(s.(z := z, reqs := map[0 := Counting(s.clock)]))
            && Next(s.(z := z, reqs := map[0 := Counting(s.clock)]), Count(0), max, window)
               == Some(s.(z := z, reqs := map[0 := Passed]))
  {
    assert map[0 := Arrived(s.clock)][0 := Counting(s.clock)] == map[0 := Counting(s.clock)];
    assert map[0 := Counting(s.clock)][0 := Passed] == map[0 := Passed];
  }

  lemma PassedStates(s: State, max: int, window: int)
    requires s.reqs == map[0 := Passed]
    ensures var added := s.(z := Add(s.z, s.clock), reqs := map[0 := Added(s.clock)], admitted := s.admitted + {s.clock});
            && Next(s, Draw(0), max, window) == Some(s.(reqs := map[0 := Stamped(s.clock)]))
            && Next(s.(reqs := map[0 := Stamped(s.clock)]), ZAdd(0), max, window) == Some(added)
            && Next(added, SetExpiry(0), max, window) == Some(added.(z := WithExpiry(added.z, s.clock, window), reqs := map[]))
  {
    assert map[0 := Passed][0 := Stamped(s.clock)] == map[0 := Stamped(s.clock)];
    assert map[0 := Stamped(s.clock)][0 := Added(s.clock)] == map[0 := Added(s.clock)];
    assert map[0 := Added(s.clock)] - {0} == map[];
  }

  /** One request alone, from arriving to leaving, within one millisecond. */
  lemma ServeAlone(ls: seq<Label>, s: State, max: int, window: int, k: nat) returns (ls': seq<Label>, s': State)
    requires Reach(ls, s, max, window, k) && k >= 1 && s.reqs == map[]
    requires |Purge(s.z, s.clock - window).members| <= max
    ensures Reach(ls', s', max, window, k)
    ensures s' == State(s.clock, WithExpiry(Add(Purge(s.z, s.clock - window), s.clock), s.clock, window), map[], s.admitted + {s.clock})
  {
    hide Reach, Next, Purge, Add, WithExpiry;
    AloneStates(s, max, window);
    ls', s' := Step(ls, s, Arrive(0), max, window, k);
    ls', s' := Step(ls', s', PurgeOld(0), max, window, k);
    ls', s' := Step(ls', s', Count(0), max, window, k);
    PassedStates(s', max, window);
    ls', s' := Step(ls', s', Draw(0), max, window, k);
    ls', s' := Step(ls', s', ZAdd(0), max, window, k);
    ls', s' := Step(ls', s', SetExpiry(0), max, window, k);
  }

  // ---- requests one at a time, a millisecond apart ----

  /** The key just after the stamps from, from + 1, ..., from + n - 1 were added to an empty set. */
  function BurstKey(from: int, n: nat, window: int): ZSet {
    if n == 0 then NO_KEY else ZSet(Stamps(from, n), Some(from + n - 1 + Lifetime(window)))
  }

  /** The state after `n` requests that began with an empty set. */
  function AfterBurst(from: int, n: nat, window: int, admitted: set<int>): State {
    State(from + n, BurstKey(from, n, window), map[], admitted + Stamps(from, n))
  }

  lemma BurstKeyStep(from: int, n: nat, window: int)
    requires n < window
    ensures Purge(BurstKey(from, n, window), from + n - window) == BurstKey(from, n, window)
    ensures |BurstKey(from, n, window).members| == n
    ensures WithExpiry(Add(BurstKey(from, n, window), from + n), from + n, window) == BurstKey(from, n + 1, window)
    ensures Seen(BurstKey(from, n + 1, window), from + n + 1) == BurstKey(from, n + 1, window)
  {
    LifetimeIs(window);
    hide Lifetime;
    var z := BurstKey(from, n, window);
    assert z.members - InRangeOf(z.members, 0, from + n - window) == z.members;
    if n > 0 { assert from in z.members; }
    assert Stamps(from, n + 1) == Stamps(from, n) + {from + n};
  }

  lemma BurstStamps(from: int, n: nat, admitted: set<int>)
    ensures admitted + Stamps(from, n) + {from + n} == admitted + Stamps(from, n + 1)
  {
  }

  lemma BurstOne(ls: seq<Label>, from: int, n: nat, admitted: set<int>, max: nat, window: int, k: nat) returns (ls': seq<Label>)
    requires n <= max && n < window && k >= 1
    requires Reach(ls, AfterBurst(from, n, window, admitted), max, window, k)
    ensures Reach(ls', AfterBurst(from, n + 1, window, admitted), max, window, k)
  {
    hide Reach, AfterBurst, Purge, Add, WithExpiry, Next;
    BurstStates(from, n, admitted, max, window);
    var s := AfterBurst(from, n, window, admitted);
    assert s.clock == from + n && s.reqs == map[] by { BurstClock(from, n, window, admitted); }
    ls', s := ServeAlone(ls, s, max, window, k);
    ls', s := Step(ls', s, Tick(from + n + 1), max, window, k);
  }

  lemma BurstClock(from: int, n: nat, window: int, admitted: set<int>)
    ensures var s := AfterBurst(from, n, window, admitted); s.clock == from + n && s.reqs == map[]
  {
  }

  lemma BurstStates(from: int, n: nat, admitted: set<int>, max: nat, window: int)
    requires n <= max && n < window
    ensures var s := AfterBurst(from, n, window, admitted);
            && |Purge(s.z, s.clock - window).members| <= max
            && var served := State(s.clock, WithExpiry(Add(Purge(s.z, s.clock - window), s.clock), s.clock, window), map[], s.admitted + {s.clock});
               && Next(served, Tick(from + n + 1), max, window) == Some(AfterBurst(from, n + 1, window, admitted))
               && AfterBurst(from, n + 1, window, admitted).reqs == map[]
  {
    BurstKeyStep(from, n, window);
    BurstStamps(from, n, admitted);
    hide BurstKey, Purge, Add, WithExpiry, Seen, Stamps;
  }

  /** As many as one over the limit are admitted. */
  lemma {:induction false} Burst(ls: seq<Label>, from: int, n: nat, admitted: set<int>, max: nat, window: int, k: nat)
    returns (ls': seq<Label>)
    requires n <= max + 1 && n <= window && k >= 1
    requires Reach(ls, State(from, NO_KEY, map[], admitted), max, window, k)
    ensures Reach(ls', AfterBurst(from, n, window, admitted), max, window, k)
    decreases n
  {
    if n == 0 {
      ls' := ls;
      assert admitted + Stamps(from, 0) == admitted;
    } else {
      hide Reach, AfterBurst;
      ls' := Burst(ls, from, n - 1, admitted, max, window, k);
      ls' := BurstOne(ls', from, n - 1, admitted, max, window, k);
    }
  }

  /** Requests one at a time use up the limit. */
  lemma UseUp(max: nat, window: int, k: nat) returns (ls: seq<Label>)
    requires max <= window && k >= 1
    ensures Reach(ls, AfterBurst(0, max, window, {}), max, window, k)
  {
    ReachStart(max, window, k);
    hide Reach, AfterBurst;
    ls := Burst([], 0, max, {}, max, window, k);
  }

  // ---- the bound on the set is reached ----

  /** Before one window has passed there is nothing to purge. */
  lemma NothingToPurge(z: ZSet, windowStart: int)
    requires windowStart < 0
    ensures Purge(z, windowStart) == if z.members == {} then NO_KEY else z
  {
    assert z.members - InRangeOf(z.members, 0, windowStart) == z.members;
  }

  lemma PassStates(s: State, r: nat, max: int, window: int)
    requires |s.z.members| <= max && s.clock < window && r !in s.reqs
    ensures var z := if s.z.members == {} then NO_KEY else s.z;
            var arrived := Move(s, r, Arrived(s.clock));
            var counting := Move(s, r, Counting(s.clock)).(z := z);
            && Next(s, Arrive(r), max, window) == Some(arrived)
            && Next(arrived, PurgeOld(r), max, window) == Some(counting)
            && Next(counting, Count(r), max, window) == Some(Move(s, r, Passed).(z := z))
  {
    NothingToPurge(s.z, s.clock - window);
    var arrived, counting := s.reqs[r := Arrived(s.clock)], s.reqs[r := Counting(s.clock)];
    assert arrived[r := Counting(s.clock)] == counting;
    assert counting[r := Passed] == s.reqs[r := Passed];
  }

  lemma PassOne(ls: seq<Label>, s: State, r: nat, max: int, window: int, k: nat) returns (ls': seq<Label>, s': State)
    requires Reach(ls, s, max, window, k) && |s.z.members| <= max && s.clock < window && r !in s.reqs && r < k
    requires forall q :: q in s.reqs ==> q < k
    ensures Reach(ls', s', max, window, k)
    ensures s' == Move(s, r, Passed).(z := if s.z.members == {} then NO_KEY else s.z)
  {
    hide Reach, Next;
    PassStates(s, r, max, window);
    ls', s' := Step(ls, s, Arrive(r), max, window, k);
    ls', s' := Step(ls', s', PurgeOld(r), max, window, k);
    ls', s' := Step(ls', s', Count(r), max, window, k);
  }

  /** The set holds the stamps 0 to n - 1, it is `n`, and the key is alive. */
  ghost predicate Filled(s: State, n: nat) {
    && s.clock == n && s.z.members == Stamps(0, n)
    && (s.z.deadline.None? || s.z.deadline.value > n)
  }

  lemma BurstFilled(n: nat, window: int)
    requires window > 0
    ensures Filled(AfterBurst(0, n, window, {}), n) && AfterBurst(0, n, window, {}).reqs == map[]
  {
    LifetimeIs(window);
    hide Lifetime;
  }

  /** First requests one at a time use up the limit, then `j` arrive together and all pass the test. */
  lemma {:induction false} PassTogether(j: nat, max: nat, window: int, k: nat) returns (ls: seq<Label>, s: State)
    requires j <= k && k >= 1 && window > max
    ensures Reach(ls, s, max, window, k) && Filled(s, max)
    ensures forall r: nat :: r in s.reqs <==> r < j
    ensures forall r :: r in s.reqs ==> s.reqs[r] == Passed
    decreases j
  {
    if j == 0 {
      hide Reach;
      ls := UseUp(max, window, k);
      s := AfterBurst(0, max, window, {});
      BurstFilled(max, window);
    } else {
      hide Reach;
      ls, s := PassTogether(j - 1, max, window, k);
      ls, s := PassOne(ls, s, j - 1, max, window, k);
    }
  }

  lemma AddFilled(s: State, r: nat, n: nat, window: int)
    requires Filled(s, n) && window > 0
    ensures Filled(State(n + 1, WithExpiry(Add(s.z, n), n, window), s.reqs - {r}, s.admitted + {n}), n + 1)
    ensures WithExpiry(Add(s.z, n), n, window).deadline == Some(n + Lifetime(window)) && Lifetime(window) >= 1000
  {
    LifetimeIs(window);
    hide Lifetime;
    assert Stamps(0, n + 1) == Stamps(0, n) + {n};
    assert n in Add(s.z, n).members;
  }

  lemma AddStates(s: State, r: nat, n: nat, max: int, window: int)
    requires r in s.reqs && s.reqs[r] == Passed && Filled(s, n) && window > 0
    ensures var stamped := Move(s, r, Stamped(n));
            var added := Move(s, r, Added(n)).(z := Add(s.z, n), admitted := s.admitted + {n});
            var done := added.(z := WithExpiry(added.z, n, window), reqs := s.reqs - {r});
            && Next(s, Draw(r), max, window) == Some(stamped)
            && Next(stamped, ZAdd(r), max, window) == Some(added)
            && Next(added, SetExpiry(r), max, window) == Some(done)
            && Next(done, Tick(n + 1), max, window) == Some(done.(clock := n + 1))
            && Filled(done.(clock := n + 1), n + 1)
  {
    AddFilled(s, r, n, window);
    hide Lifetime, Stamps;
    assert s.reqs[r := Stamped(n)][r := Added(n)] == s.reqs[r := Added(n)];
    assert s.reqs[r := Added(n)] - {r} == s.reqs - {r};
  }

  lemma AddOne(ls: seq<Label>, s: State, r: nat, n: nat, max: nat, window: int, k: nat) returns (ls': seq<Label>, s': State)
    requires Reach(ls, s, max, window, k) && r in s.reqs && s.reqs[r] == Passed && Filled(s, n) && window > 0
    requires forall q :: q in s.reqs ==> q < k
    ensures Reach(ls', s', max, window, k) && Filled(s', n + 1)
    ensures s'.reqs == s.reqs - {r}
  {
    hide Reach, Next, Filled, Add, WithExpiry;
    AddStates(s, r, n, max, window);
    ls', s' := Step(ls, s, Draw(r), max, window, k);
    ls', s' := Step(ls', s', ZAdd(r), max, window, k);
    ls', s' := Step(ls', s', SetExpiry(r), max, window, k);
    ls', s' := Step(ls', s', Tick(n + 1), max, window, k);
  }

  /** Then they add their stamps, a millisecond apart. */
  lemma {:induction false} AddTogether(i: nat, max: nat, window: int, k: nat) returns (ls: seq<Label>, s: State)
    requires i <= k && k >= 1 && window > max
    ensures Reach(ls, s, max, window, k) && Filled(s, max + i)
    ensures forall r: nat :: r in s.reqs <==> i <= r < k
    ensures forall r :: r in s.reqs ==> s.reqs[r] == Passed
    decreases i
  {
    hide Reach, Filled, Stamps;
    if i == 0 {
      ls, s := PassTogether(k, max, window, k);
    } else {
      ls, s := AddTogether(i - 1, max, window, k);
      ls, s := AddOne(ls, s, i - 1, max + i - 1, max, window, k);
    }
  }

  /** The bound on the set is exact: for every limit below the window and every k a run reaches max + k members. */
  lemma SetBoundReached(max: nat, window: int, k: nat) returns (ls: seq<Label>)
    requires k >= 1 && window > max
    ensures AtMost(INITIAL, ls, max, window, k)
    ensures |Run(INITIAL, ls, max, window).value.z.members| == max + k
  {
    var s;
    ls, s := AddTogether(k, max, window, k);
  }

  // ---- the key lapses between ZADD and EXPIRE ----

  /** A request has passed the test; just before the deadline it adds its stamp, just after it sets the expiry. */
  lemma StallStates(s: State, deadline: int, max: int, window: int)
    requires s.reqs == map[0 := Passed] && s.z.deadline == Some(deadline) && s.clock < deadline
    ensures var waited := s.(clock := deadline - 1);
            var stamped := waited.(reqs := map[0 := Stamped(deadline - 1)]);
            var added := waited.(z := Add(s.z, deadline - 1), reqs := map[0 := Added(deadline - 1)], admitted := s.admitted + {deadline - 1});
            var lapsed := added.(clock := deadline, z := NO_KEY);
            && Next(s, Tick(deadline - 1), max, window) == Some(waited)
            && Next(waited, Draw(0), max, window) == Some(stamped)
            && Next(stamped, ZAdd(0), max, window) == Some(added)
            && Next(added, Tick(deadline), max, window) == Some(lapsed)
            && Next(lapsed, SetExpiry(0), max, window) == Some(lapsed.(reqs := map[]))
  {
    assert map[0 := Passed][0 := Stamped(deadline - 1)] == map[0 := Stamped(deadline - 1)];
    assert map[0 := Stamped(deadline - 1)][0 := Added(deadline - 1)] == map[0 := Added(deadline - 1)];
    assert map[0 := Added(deadline - 1)] - {0} == map[];
  }

  lemma StallAndLapse(ls: seq<Label>, s: State, deadline: int, max: int, window: int) returns (ls': seq<Label>)
    requires Reach(ls, s, max, window, 1)
    requires s.reqs == map[0 := Passed] && s.z.deadline == Some(deadline) && s.clock < deadline
    ensures Reach(ls', State(deadline, NO_KEY, map[], s.admitted + {deadline - 1}), max, window, 1)
  {
    hide Reach, Next;
    StallStates(s, deadline, max, window);
    var s';
    ls', s' := Step(ls, s, Tick(deadline - 1), max, window, 1);
    ls', s' := Step(ls', s', Draw(0), max, window, 1);
    ls', s' := Step(ls', s', ZAdd(0), max, window, 1);
    ls', s' := Step(ls', s', Tick(deadline), max, window, 1);
    ls', s' := Step(ls', s', SetExpiry(0), max, window, 1);
  }

  /** No request is in flight, the limit is used up, and the key will lapse. */
  ghost predicate Ripe(s: State, deadline: int, max: nat, window: int) {
    && s.reqs == map[] && s.z.members != {} && |s.z.members| <= max
    && s.clock < window && s.clock < deadline && s.z.deadline == Some(deadline)
  }

  lemma UsedUp(max: nat, window: int)
    requires 1 <= max < window
    ensures Ripe(AfterBurst(0, max, window, {}), max - 1 + Lifetime(window), max, window)
  {
    LifetimeIs(window);
    hide Lifetime;
    assert 0 in Stamps(0, max);
  }

  lemma LoseFrom(ls: seq<Label>, s: State, deadline: int, max: nat, window: int)
    returns (ls': seq<Label>, lost: set<int>)
    requires Reach(ls, s, max, window, 1) && Ripe(s, deadline, max, window)
    ensures Reach(ls', State(deadline, NO_KEY, map[], lost), max, window, 1) && deadline - 1 in lost
  {
    hide Reach;
    var passed;
    ls', passed := PassOne(ls, s, 0, max, window, 1);
    ls' := StallAndLapse(ls', passed, deadline, max, window);
    lost := s.admitted + {deadline - 1};
  }

  /** The limit is used up, one more request passes and stalls, and its stamp is lost with the key. */
  lemma LoseStamp(max: nat, window: int) returns (ls: seq<Label>, deadline: int, lost: set<int>)
    requires 1 <= max < window
    ensures deadline - 1 in lost
    ensures Reach(ls, State(deadline, NO_KEY, map[], lost), max, window, 1)
  {
    hide Reach, Lifetime, AfterBurst, Ripe;
    UsedUp(max, window);
    deadline := max - 1 + Lifetime(window);
    ls := UseUp(max, window, 1);
    ls, lost := LoseFrom(ls, AfterBurst(0, max, window, {}), deadline, max, window);
  }

  /**
   The window bound needs more than one request at a time. For every limit from 1 on and
   every wider window: the key lapses between a ZADD and its EXPIRE, and a full burst
   after it shares a window with the stamp that was lost.
   */
  lemma ExpiryRace(max: nat, window: int) returns (ls: seq<Label>, end: int)
    requires 1 <= max && max + 1 < window
    ensures AtMost(INITIAL, ls, max, window, 1)
    ensures |InWindow(Run(INITIAL, ls, max, window).value.admitted, end, window)| >= max + 2 > Max(max + 1, 0)
  {
    hide Reach, AfterBurst, Run, AtMost, InWindow;
    var deadline, lost;
    ls, deadline, lost := LoseStamp(max, window);
    ls := Burst(ls, deadline, max + 1, lost, max, window, 1);
    end := deadline + max;
    ReachMeans(ls, AfterBurst(deadline, max + 1, window, lost), max, window, 1);
    RaceCount(lost, deadline, max, window);
  }

  lemma RaceCount(lost: set<int>, deadline: int, max: nat, window: int)
    requires deadline - 1 in lost && max + 1 < window
    ensures |InWindow(AfterBurst(deadline, max + 1, window, lost).admitted, deadline + max, window)| >= max + 2
  {
    hide Stamps;
    assert |Stamps(deadline - 1, max + 2)| == max + 2;
    SubsetSize(Stamps(deadline - 1, max + 2), InWindow(lost + Stamps(deadline, max + 1), deadline + max, window));
  }

  lemma ReachMeans(ls: seq<Label>, s: State, max: int, window: int, k: nat)
    requires Reach(ls, s, max, window, k)
    ensures AtMost(INITIAL, ls, max, window, k) && Run(INITIAL, ls, max, window) == Some(s)
  {
  }

  // ---- and when it cannot ----

  /** With limit 0, who passes the test has met no key, so the key it creates has no deadline until its EXPIRE. */
  predicate NoDeadlineYet(s: State) {
    && (s.z.members == {} ==> s.z == NO_KEY)
    && (forall r :: r in s.reqs && (s.reqs[r].Passed? || s.reqs[r].Stamped?) ==> s.z == NO_KEY)
    && (forall r :: r in s.reqs && s.reqs[r].Added? ==> s.z.deadline == None)
  }

  lemma OnlyOne(s: State, r: nat, q: nat)
    requires |s.reqs.Keys| <= 1 && r in s.reqs && q in s.reqs
    ensures r == q
  {
    if r != q { SubsetNat({r, q}, s.reqs.Keys); }
  }

  lemma SubsetNat(x: set<nat>, y: set<nat>)
    requires x <= y
    ensures |x| <= |y|
  {
    Sums.SubsetNotLarger(x, y);
  }

  /** The only request takes a step. */
  lemma NoDeadlineExec(s: State, l: Label, window: int)
    requires NoDeadlineYet(s) && !l.Tick? && !l.Arrive? && Next(s, l, 0, window).Some?
    requires forall r :: r in s.reqs ==> r == l.r
    ensures NoDeadlineYet(Next(s, l, 0, window).value)
  {
    hide Lifetime;
    assert s.z.members == {} ==> |s.z.members| == 0;
  }

  lemma NoDeadlineStep(s: State, l: Label, window: int)
    requires NoDeadlineYet(s) && Next(s, l, 0, window).Some?
    requires |s.reqs.Keys| <= 1 && |Next(s, l, 0, window).value.reqs.Keys| <= 1
    ensures NoDeadlineYet(Next(s, l, 0, window).value)
  {
    hide Lifetime;
    if !l.Tick? && !l.Arrive? {
      forall r | r in s.reqs
        ensures r == l.r
      {
        OnlyOne(s, r, l.r);
      }
      NoDeadlineExec(s, l, window);
    }
  }

  lemma {:induction false} LimitZeroTimely(ls: seq<Label>, window: int)
    requires AtMost(INITIAL, ls, 0, window, 1)
    ensures NoDeadlineYet(Run(INITIAL, ls, 0, window).value) && Timely(ls, 0, window)
    decreases |ls|
  {
    if ls != [] {
      LimitZeroTimely(ls[..|ls| - 1], window);
      NoDeadlineStep(Run(INITIAL, ls[..|ls| - 1], 0, window).value, ls[|ls| - 1], window);
    }
  }

  /** A window of so many milliseconds has no room for more distinct stamps. */
  lemma NarrowWindow(stamps: set<int>, end: int, window: nat)
    ensures |InWindow(stamps, end, window)| <= window
  {
    hide Stamps;
    SubsetSize(InWindow(stamps, end, window), Stamps(end - window + 1, window));
  }

  /** Some run of one request at a time, its commands interleaved with the clock, exceeds the bound. */
  ghost predicate CanExceed(max: nat, window: int) {
    exists ls, end ::
      AtMost(INITIAL, ls, max, window, 1) && |InWindow(Run(INITIAL, ls, max, window).value.admitted, end, window)| > max + 1
  }

  /** Exactly when the race exists, for windows that the key outlives. */
  lemma ExpiryRaceIff(max: nat, window: int)
    requires window > 0 && Whole(window)
    ensures CanExceed(max, window) <==> 1 <= max && max + 1 < window
  {
    if 1 <= max && max + 1 < window {
      var ls, end := ExpiryRace(max, window);
    } else {
      forall ls, end | AtMost(INITIAL, ls, max, window, 1)
        ensures |InWindow(Run(INITIAL, ls, max, window).value.admitted, end, window)| <= max + 1
      {
        if max == 0 {
          LimitZeroTimely(ls, window);
          TimelySuffices(ls, 0, window);
          InterleavedWindowBound(ls, 0, window, 1, end);
        } else {
          NarrowWindow(Run(INITIAL, ls, max, window).value.admitted, end, window);
        }
      }
    }
  }
}
