/**
 The sliding-window log of rateLimitMiddleware, one request at a time. Times and stamps
 are milliseconds; a request reads the clock once for its window and once for its stamp.
 */
module RateLimiter {
  import opened Bank
  import Sums

  /** A sorted set whose members are their own scores, with the time its key expires. */
  datatype ZSet = ZSet(members: set<int>, deadline: Option<int>)

  const NO_KEY := ZSet({}, None)

  /** Redis answers as if an expired key were not there. */
  function Seen(z: ZSet, now: int): ZSet {
    if z.deadline.Some? && z.deadline.value <= now then NO_KEY else z
  }

  /** Redis drops a key with its last member. */
  function WithMembers(z: ZSet, members: set<int>): ZSet {
    if members == {} then NO_KEY else z.(members := members)
  }

  function InRangeOf(members: set<int>, least: int, most: int): set<int> {
    set m | m in members && least <= m <= most
  }

  function Purge(z: ZSet, windowStart: int): ZSet {
    WithMembers(z, z.members - InRangeOf(z.members, 0, windowStart))
  }

  function Add(z: ZSet, stamp: int): ZSet {
    z.(members := z.members + {stamp})
  }

  /** The client sends EXPIRE in whole seconds, cut down, but one second at least for a positive duration. */
  function Lifetime(window: int): int {
    if 0 < window < 1000 then 1000 else 1000 * Seconds(window)
  }

  function WithExpiry(z: ZSet, at: int, window: int): ZSet {
    if z.members == {} then z else z.(deadline := Some(at + Lifetime(window)))
  }

  /** What a request finds once it has purged the key. */
  function View(z: ZSet, now: int, window: int): ZSet {
    Purge(Seen(z, now), now - window)
  }

  function Least(s: set<int>): (m: int)
    requires s != {}
    ensures m in s && forall x :: x in s ==> m <= x
  {
    LeastExists(s);
    var m :| m in s && forall x :: x in s ==> m <= x;
    m
  }

  lemma {:induction false} LeastExists(s: set<int>)
    requires s != {}
    ensures exists m :: m in s && forall x :: x in s ==> m <= x
    decreases s
  {
    var a := Sums.Pick(s);
    var rest := s - {a};
    var least := a;
    if rest != {} {
      LeastExists(rest);
      var m :| m in rest && forall x :: x in rest ==> m <= x;
      least := if m <= a then m else a;
    }
    forall x | x in s
      ensures least <= x
    {
      if x != a { assert x in rest; }
    }
    assert least in s;
  }

  /** The verdict for one request, with its headers; `reset` and `retryAfter` are sent in whole seconds. */
  datatype Verdict = Verdict(admitted: bool, remaining: int, nextReset: int, reset: int, retryAfter: int)

  function Max(x: int, y: int): int {
    if x > y then x else y
  }

  /** Go's division of int64 truncates; negative values only occur under Max with 0. */
  function Seconds(ms: int): int {
    if ms >= 0 then ms / 1000 else -((-ms) / 1000)
  }

  function FirstOf(members: set<int>, now: int): int {
    if members == {} then now else Least(members)
  }

  /** What one request finds, answers and leaves behind. */
  function Handle(z: ZSet, now: int, stamp: int, max: int, window: int): (ZSet, Verdict) {
    var purged := View(z, now, window);
    var count := |purged.members|;
    var nextReset := FirstOf(purged.members, now) + window;
    if count > max then
      (purged, Verdict(false, Max(0, max - count), nextReset, Seconds(nextReset), Max(Seconds(nextReset - now), 0)))
    else
      (WithExpiry(Add(Seen(purged, stamp), stamp), stamp, window), Verdict(true, Max(0, max - count), nextReset, Seconds(nextReset), 0))
  }

  /** Looking again at the same instant shows the same set. */
  lemma SeenAgain(z: ZSet, now: int, members: set<int>)
    ensures Seen(WithMembers(Seen(z, now), members), now) == WithMembers(Seen(z, now), members)
    ensures forall stamp :: Seen(Add(Seen(z, now), stamp), now) == Add(Seen(z, now), stamp)
  {
  }

  lemma LeastUnique(s: set<int>, m: int)
    requires m in s && forall x :: x in s ==> m <= x
    ensures Least(s) == m
  {
  }

  /** A key that is not there is an empty set. */
  function Stored(zsets: map<string, ZSet>, key: string): ZSet {
    if key in zsets then zsets[key] else NO_KEY
  }

  /** The Redis commands that the middleware uses, over one key space. */
  class RedisStore {
    var zsets: map<string, ZSet>

    constructor ()
      ensures zsets == map[]
    {
      zsets := map[];
    }

    method ZRemRangeByScore(key: string, least: int, most: int, now: int)
      modifies this
      ensures var z := Seen(Stored(old(zsets), key), now);
              zsets == old(zsets)[key := WithMembers(z, z.members - InRangeOf(z.members, least, most))]
    {
      var z := Seen(Stored(zsets, key), now);
      zsets := zsets[key := WithMembers(z, z.members - InRangeOf(z.members, least, most))];
    }

    method ZCard(key: string, now: int) returns (count: int)
      ensures count == |Seen(Stored(zsets, key), now).members|
    {
      count := |Seen(Stored(zsets, key), now).members|;
    }

    /** ZRANGE key 0 0: the member with the least score. */
    method ZRangeFirst(key: string, now: int) returns (first: Option<int>)
      ensures first.None? <==> Seen(Stored(zsets, key), now).members == {}
      ensures first.Some? ==> first.value in Seen(Stored(zsets, key), now).members
      ensures first.Some? ==> forall x :: x in Seen(Stored(zsets, key), now).members ==> first.value <= x
    {
      var members := Seen(Stored(zsets, key), now).members;
      first := if members == {} then None else Some(Least(members));
    }

    method ZAdd(key: string, stamp: int, now: int)
      modifies this
      ensures zsets == old(zsets)[key := Add(Seen(Stored(old(zsets), key), now), stamp)]
    {
      zsets := zsets[key := Add(Seen(Stored(zsets, key), now), stamp)];
    }

    method Expire(key: string, window: int, now: int)
      modifies this
      ensures zsets == old(zsets)[key := WithExpiry(Seen(Stored(old(zsets), key), now), now, window)]
    {
      zsets := zsets[key := WithExpiry(Seen(Stored(zsets, key), now), now, window)];
    }

    /** The reading half of the middleware: purge, count and the oldest stamp. */
    method Examine(key: string, now: int, window: int) returns (count: int, nextReset: int)
      modifies this
      ensures var purged := Purge(Seen(Stored(old(zsets), key), now), now - window);
              && zsets == old(zsets)[key := purged]
              && count == |purged.members|
              && nextReset == FirstOf(purged.members, now) + window
    {
      ghost var z := Seen(Stored(zsets, key), now);
      SeenAgain(Stored(zsets, key), now, z.members - InRangeOf(z.members, 0, now - window));
      ZRemRangeByScore(key, 0, now - window, now);
      count := ZCard(key, now);
      var first := ZRangeFirst(key, now);
      if first.Some? { LeastUnique(Purge(z, now - window).members, first.value); }
      var firstRequest := if first.Some? then first.value else now;
      nextReset := firstRequest + window;
    }

    /** The writing half: the stamp and the expiry. */
    method Enter(key: string, stamp: int, window: int)
      modifies this
      ensures zsets == old(zsets)[key := WithExpiry(Add(Seen(Stored(old(zsets), key), stamp), stamp), stamp, window)]
    {
      SeenAgain(Stored(zsets, key), stamp, {});
      ZAdd(key, stamp, stamp);
      Expire(key, window, stamp);
    }

    /** rateLimitMiddleware for one request, without a verdict when ZCARD fails; other keys are left alone. */
    method RateLimit(key: string, now: int, stamp: int, max: int, window: int, countFails: bool)
      returns (verdict: Option<Verdict>)
      modifies this
      ensures var (z, answer) := Handle(Stored(old(zsets), key), now, stamp, max, window);
              if countFails then verdict == None && zsets == old(zsets)[key := View(Stored(old(zsets), key), now, window)]
              else verdict == Some(answer) && zsets == old(zsets)[key := z]
    {
      if countFails {
        ZRemRangeByScore(key, 0, now - window, now);
        return None;
      }
      var count, nextReset := Examine(key, now, window);
      var remaining := Max(0, max - count);
      if count > max {
        return Some(Verdict(false, remaining, nextReset, Seconds(nextReset), Max(Seconds(nextReset - now), 0)));
      }
      Enter(key, stamp, window);
      return Some(Verdict(true, remaining, nextReset, Seconds(nextReset), 0));
    }
  }
}
