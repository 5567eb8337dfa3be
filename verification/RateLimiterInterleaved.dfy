/**
 The limiter with many requests on one key at once: every Redis command of every request
 is one step, and the clock may move between any two of them.
 */
module RateLimiterInterleaved {
  import opened Bank
  import opened RateLimiter
  import opened RateLimiterRuns
  import Sums

  /** Where a request is; it leaves when rejected, failed or done. */
  datatype Phase =
    | Arrived(now: int)
    | Counting(now: int)
    | Passed
    | Stamped(stamp: int)
    | Added(stamp: int)

  datatype State = State(clock: int, z: ZSet, reqs: map<nat, Phase>, admitted: set<int>)

  datatype Label =
    | Tick(time: int)
    | Arrive(r: nat)
    | PurgeOld(r: nat)
    | Count(r: nat)
    | CountFails(r: nat)
    | Draw(r: nat)
    | ZAdd(r: nat)
    | SetExpiry(r: nat)

  const INITIAL := State(0, NO_KEY, map[], {})

  function Move(s: State, r: nat, p: Phase): State {
    s.(reqs := s.reqs[r := p])
  }

  function Leave(s: State, r: nat): State {
    s.(reqs := s.reqs - {r})
  }

  function Next(s: State, l: Label, max: int, window: int): Option<State> {
    match l
    case Tick(time) => if time < s.clock then None else Some(s.(clock := time, z := Seen(s.z, time)))
    case Arrive(r) => if r in s.reqs then None else Some(Move(s, r, Arrived(s.clock)))
    case _ =>
      if l.r !in s.reqs then None
      else
        match (l, s.reqs[l.r])
        case (PurgeOld(r), Arrived(now)) => Some(Move(s, r, Counting(now)).(z := Purge(s.z, now - window)))
        case (Count(r), Counting(_)) => Some(if |s.z.members| > max then Leave(s, r) else Move(s, r, Passed))
        case (CountFails(r), Counting(_)) => Some(Leave(s, r))
        case (Draw(r), Passed) => Some(Move(s, r, Stamped(s.clock)))
        case (ZAdd(r), Stamped(stamp)) =>
          Some(Move(s, r, Added(stamp)).(z := Add(s.z, stamp), admitted := s.admitted + {stamp}))
        case (SetExpiry(r), Added(_)) => Some(Leave(s, r).(z := WithExpiry(s.z, s.clock, window)))
        case _ => None
  }

  function Run(s: State, ls: seq<Label>, max: int, window: int): Option<State>
    decreases |ls|
  {
    if ls == [] then Some(s)
    else
      match Run(s, ls[..|ls| - 1], max, window)
      case None => None
      case Some(m) => Next(m, ls[|ls| - 1], max, window)
  }

  /** At every moment at most `k` requests are between arriving and leaving. */
  ghost predicate AtMost(s: State, ls: seq<Label>, max: int, window: int, k: nat)
    decreases |ls|
  {
    && Run(s, ls, max, window).Some?
    && |Run(s, ls, max, window).value.reqs.Keys| <= k
    && (ls != [] ==> AtMost(s, ls[..|ls| - 1], max, window, k))
  }

  /** Requests that have passed the test and not added their stamp yet. */
  function Through(s: State): set<nat> {
    set r | r in s.reqs && (s.reqs[r].Passed? || s.reqs[r].Stamped?)
  }

  /** What stays bounded: the set and those about to add to it. */
  ghost predicate Bounded(s: State, max: int, k: nat) {
    |s.z.members| + |Through(s)| <= Max(max + k, 0)
  }

  lemma ThroughStep(s: State, l: Label, max: int, window: int)
    requires Next(s, l, max, window).Some?
    ensures var s' := Next(s, l, max, window).value;
            Through(s') == if l.Count? && |s.z.members| <= max then Through(s) + {l.r}
                           else if l.ZAdd? then Through(s) - {l.r}
                           else Through(s)
    ensures l.Count? ==> l.r !in Through(s)
    ensures l.ZAdd? ==> l.r in Through(s)
  {
  }

  lemma BoundedStep(s: State, l: Label, max: int, window: int, k: nat)
    requires Bounded(s, max, k) && Next(s, l, max, window).Some? && |s.reqs.Keys| <= k
    ensures Bounded(Next(s, l, max, window).value, max, k)
  {
    var s' := Next(s, l, max, window).value;
    ThroughStep(s, l, max, window);
    if l.Count? && |s.z.members| <= max {
      assert l.r in s.reqs;
      SubsetSize(Through(s), s.reqs.Keys - {l.r});
    } else if !l.ZAdd? {
      SubsetSize(s'.z.members, s.z.members);
    }
  }

  /** Main bound: with at most k requests in flight the set never has more than max + k members. */
  lemma {:induction false} SetBound(ls: seq<Label>, max: int, window: int, k: nat)
    requires AtMost(INITIAL, ls, max, window, k)
    ensures Bounded(Run(INITIAL, ls, max, window).value, max, k)
    ensures |Run(INITIAL, ls, max, window).value.z.members| <= Max(max + k, 0)
    decreases |ls|
  {
    if ls != [] {
      SetBound(ls[..|ls| - 1], max, window, k);
      BoundedStep(Run(INITIAL, ls[..|ls| - 1], max, window).value, ls[|ls| - 1], max, window, k);
    } else {
      assert Through(INITIAL) == {};
    }
  }
}
