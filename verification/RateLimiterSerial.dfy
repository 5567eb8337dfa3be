/** The interleaved protocol, run with one request after the other, is the middleware. */
module RateLimiterSerial {
  import opened Bank
  import opened RateLimiter
  import opened RateLimiterRuns
  import opened RateLimiterInterleaved

  lemma {:induction false} RunConcat(s: State, ls: seq<Label>, more: seq<Label>, max: int, window: int)
    ensures Run(s, ls + more, max, window)
            == if Run(s, ls, max, window).None? then None else Run(Run(s, ls, max, window).value, more, max, window)
    decreases |more|
  {
    if more == [] {
      assert ls + more == ls;
    } else {
      var n := |more| - 1;
      RunConcat(s, ls, more[..n], max, window);
      assert (ls + more)[..|ls + more| - 1] == ls + more[..n];
    }
  }

  /** The commands of one request, until it is rejected or admitted. */
  function Asking(r: Req): seq<Label> {
    [Tick(r.now), Arrive(0), PurgeOld(0), Count(0)]
  }

  function Entering(r: Req): seq<Label> {
    [Tick(r.stamp), Draw(0), ZAdd(0), SetExpiry(0)]
  }

  lemma FourSteps(s0: State, s1: State, s2: State, s3: State, s4: State, a: Label, b: Label, c: Label, d: Label, max: int, window: int)
    requires Next(s0, a, max, window) == Some(s1) && Next(s1, b, max, window) == Some(s2)
    requires Next(s2, c, max, window) == Some(s3) && Next(s3, d, max, window) == Some(s4)
    ensures Run(s0, [a, b, c, d], max, window) == Some(s4)
  {
    hide Next;
    assert [a, b, c, d][..3] == [a, b, c] && [a, b, c][..2] == [a, b] && [a, b][..1] == [a] && [a][..0] == [];
    assert Run(s0, [a], max, window) == Some(s1);
    assert Run(s0, [a, b], max, window) == Some(s2);
    assert Run(s0, [a, b, c], max, window) == Some(s3);
  }

  lemma AskRun(s: State, r: Req, max: int, window: int)
    requires s.reqs == map[] && s.clock <= r.now
    ensures var left := View(s.z, r.now, window);
            Run(s, Asking(r), max, window)
            == Some(s.(clock := r.now, z := left, reqs := if |left.members| > max then map[] else map[0 := Passed]))
  {
    var left := View(s.z, r.now, window);
    var s1 := s.(clock := r.now, z := Seen(s.z, r.now));
    var s2 := s1.(reqs := map[0 := Arrived(r.now)]);
    var s3 := s2.(z := left, reqs := map[0 := Counting(r.now)]);
    var s4 := s3.(reqs := if |left.members| > max then map[] else map[0 := Passed]);
    hide Seen, Purge, Run;
    assert map[0 := Arrived(r.now)][0 := Counting(r.now)] == map[0 := Counting(r.now)];
    assert map[0 := Counting(r.now)][0 := Passed] == map[0 := Passed] && map[0 := Counting(r.now)] - {0} == map[];
    FourSteps(s, s1, s2, s3, s4, Tick(r.now), Arrive(0), PurgeOld(0), Count(0), max, window);
  }

  lemma EnterRun(s: State, r: Req, max: int, window: int)
    requires s.reqs == map[0 := Passed] && s.clock <= r.stamp
    ensures Run(s, Entering(r), max, window)
            == Some(State(r.stamp, WithExpiry(Add(Seen(s.z, r.stamp), r.stamp), r.stamp, window), map[], s.admitted + {r.stamp}))
  {
    var s1 := s.(clock := r.stamp, z := Seen(s.z, r.stamp));
    var s2 := s1.(reqs := map[0 := Stamped(r.stamp)]);
    var s3 := s2.(z := Add(s1.z, r.stamp), reqs := map[0 := Added(r.stamp)], admitted := s.admitted + {r.stamp});
    var s4 := s3.(z := WithExpiry(s3.z, r.stamp, window), reqs := map[]);
    hide Seen, Add, WithExpiry, Run;
    assert map[0 := Passed][0 := Stamped(r.stamp)] == map[0 := Stamped(r.stamp)];
    assert map[0 := Stamped(r.stamp)][0 := Added(r.stamp)] == map[0 := Added(r.stamp)] && map[0 := Added(r.stamp)] - {0} == map[];
    FourSteps(s, s1, s2, s3, s4, Tick(r.stamp), Draw(0), ZAdd(0), SetExpiry(0), max, window);
  }

  /** The commands of one request after the others. */
  function Commanded(reqs: seq<Req>, r: Req, max: int, window: int): seq<Label> {
    Asking(r) + if VerdictOn(reqs, r, max, window).admitted then Entering(r) else []
  }

  function Commands(reqs: seq<Req>, max: int, window: int): seq<Label>
    decreases |reqs|
  {
    if reqs == [] then []
    else
      var rest := reqs[..|reqs| - 1];
      Commands(rest, max, window) + Commanded(rest, reqs[|reqs| - 1], max, window)
  }

  /** Nothing is in flight, and the key and the admitted stamps are those of the middleware. */
  ghost predicate Agrees(s: State, reqs: seq<Req>, max: int, window: int) {
    && s.clock <= Clock(reqs) && s.reqs == map[]
    && s.z == After(reqs, max, window) && s.admitted == Served(reqs, max, window)
  }

  lemma OneRequest(s: State, reqs: seq<Req>, r: Req, max: int, window: int)
    requires Agrees(s, reqs, max, window) && Clock(reqs) <= r.now <= r.stamp
    ensures var s' := Run(s, Commanded(reqs, r, max, window), max, window);
            s'.Some? && Agrees(s'.value, reqs + [r], max, window)
  {
    hide Run, View, Seen, Add, WithExpiry, Asking, Entering, After, Served;
    OneMore(reqs, r, max, window);
    AskRun(s, r, max, window);
    if VerdictOn(reqs, r, max, window).admitted {
      EnterRun(s.(clock := r.now, z := View(s.z, r.now, window), reqs := map[0 := Passed]), r, max, window);
      RunConcat(s, Asking(r), Entering(r), max, window);
    } else {
      assert Asking(r) + [] == Asking(r);
    }
  }

  /**
   Every sequence of requests, taken command by command, leaves the key and the admitted
   stamps that the middleware leaves: what is proved of the interleaved protocol is about
   the same commands.
   */
  lemma {:induction false} SerialIsMiddleware(reqs: seq<Req>, max: int, window: int)
    requires InOrder(reqs)
    ensures var s := Run(INITIAL, Commands(reqs, max, window), max, window);
            s.Some? && Agrees(s.value, reqs, max, window)
    decreases |reqs|
  {
    if reqs != [] {
      var rest, r := reqs[..|reqs| - 1], reqs[|reqs| - 1];
      if rest != [] { assert rest[|rest| - 1] == reqs[|reqs| - 2]; }
      assert reqs == rest + [r];
      hide Run, Commanded, Agrees;
      SerialIsMiddleware(rest, max, window);
      OneRequest(Run(INITIAL, Commands(rest, max, window), max, window).value, rest, r, max, window);
      RunConcat(INITIAL, Commands(rest, max, window), Commanded(rest, r, max, window), max, window);
    }
  }
}
