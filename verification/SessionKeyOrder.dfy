/**
 The three keys of a session, one Redis command at a time: while the sid key is live, so
 are the user_agent and ip keys, because all are set and deleted in the same order.
 */
module SessionKeyOrder {
  import opened Bank
  import opened KeyValue
  import opened Sessions
  import opened SessionRuns

  /** A creation in progress, after `done` of its three SETs. */
  datatype Creation = Creation(done: nat, username: string, agent: string, ip: string)

  /** `deleting` are the cookies whose deletion has begun with the sid key. */
  datatype Keys = Keys(kv: Kv, clock: int, creating: map<string, Creation>, used: set<string>, deleting: set<string>)

  datatype Command =
    | Wait(time: int)
    | BeginCreate(id: string, username: string, agent: string, ip: string)
    | SetNext(id: string)
    | DelSid(id: string)
    | DelAgent(id: string)
    | DelIp(id: string)

  const NO_KEYS := Keys(map[], 0, map[], {}, {})

  function SetOf(kv: Kv, id: string, c: Creation, now: int, ttl: int): Kv {
    if c.done == 0 then Put(kv, SidKey(id), c.username, now, ttl)
    else if c.done == 1 then Put(kv, AgentKey(id), c.agent, now, ttl)
    else Put(kv, IpKey(id), c.ip, now, ttl)
  }

  /** A cookie is known only after its creation; deletion goes on from the sid key. */
  function Do(s: Keys, c: Command, ttl: int): Option<Keys> {
    match c
    case Wait(time) => if time < s.clock then None else Some(s.(clock := time))
    case BeginCreate(id, username, agent, ip) =>
      if !IsId(id) || id in s.used || id in s.deleting then None
      else Some(s.(creating := s.creating[id := Creation(0, username, agent, ip)], used := s.used + {id}))
    case SetNext(id) =>
      if id !in s.creating then None
      else
        var step := s.creating[id];
        Some(s.(kv := SetOf(s.kv, id, step, s.clock, ttl),
                creating := if step.done < 2 then s.creating[id := step.(done := step.done + 1)] else s.creating - {id}))
    case DelSid(id) =>
      if id in s.creating then None
      else Some(s.(kv := Remove(s.kv, SidKey(id)), deleting := s.deleting + {id}))
    case DelAgent(id) => if id !in s.deleting then None else Some(s.(kv := Remove(s.kv, AgentKey(id))))
    case DelIp(id) => if id !in s.deleting then None else Some(s.(kv := Remove(s.kv, IpKey(id))))
  }

  function RunKeys(cs: seq<Command>, ttl: int): Option<Keys>
    decreases |cs|
  {
    if cs == [] then Some(NO_KEYS)
    else
      match RunKeys(cs[..|cs| - 1], ttl)
      case None => None
      case Some(m) => Do(m, cs[|cs| - 1], ttl)
  }

  /** The cookie is the name that another session's key has after the common prefix. */
  predicate NamesPart(cookie: string, id: string) {
    cookie == id + ":user_agent" || cookie == id + ":ip"
  }

  /** No cookie presented for deletion names a part of this session; otherwise it may be any text. */
  predicate NoneNames(cs: seq<Command>, id: string) {
    forall i :: 0 <= i < |cs| && cs[i].DelSid? ==> !NamesPart(cs[i].id, id)
  }

  /** The sid key never outlives the other two. */
  predicate Nested(kv: Kv, id: string) {
    SidKey(id) in kv ==>
      && AgentKey(id) in kv && IpKey(id) in kv
      && kv[SidKey(id)].deadline <= kv[AgentKey(id)].deadline
      && kv[SidKey(id)].deadline <= kv[IpKey(id)].deadline
  }

  /** The part of the nesting that a creation has reached. */
  predicate PartlyNested(s: Keys, id: string, done: nat, ttl: int) {
    && (done == 0 ==> SidKey(id) !in s.kv)
    && (SidKey(id) in s.kv ==>
          && s.kv[SidKey(id)].deadline <= s.clock + ttl
          && (done == 2 ==> AgentKey(id) in s.kv && s.kv[SidKey(id)].deadline <= s.kv[AgentKey(id)].deadline))
  }

  /** What one command does to the keys of the id it names, and to those of another id. */
  lemma OtherUntouched(s: Keys, c: Command, ttl: int, other: string)
    requires Do(s, c, ttl).Some? && IsId(other)
    requires !c.Wait? ==> c.id != other && !NamesPart(c.id, other)
    ensures var s' := Do(s, c, ttl).value;
            && (SidKey(other) in s'.kv <==> SidKey(other) in s.kv) && (SidKey(other) in s.kv ==> s'.kv[SidKey(other)] == s.kv[SidKey(other)])
            && (AgentKey(other) in s'.kv <==> AgentKey(other) in s.kv) && (AgentKey(other) in s.kv ==> s'.kv[AgentKey(other)] == s.kv[AgentKey(other)])
            && (IpKey(other) in s'.kv <==> IpKey(other) in s.kv) && (IpKey(other) in s.kv ==> s'.kv[IpKey(other)] == s.kv[IpKey(other)])
            && (other in s'.creating <==> other in s.creating) && (other in s.creating ==> s'.creating[other] == s.creating[other])
            && (other in s'.used <==> other in s.used) && (other in s'.deleting <==> other in s.deleting)
            && s.clock <= s'.clock
  {
    hide SidKey, AgentKey, IpKey;
    if !c.Wait? { CookieKeys(other, c.id); }
  }

  /** What holds of one id. */
  ghost predicate IdOk(s: Keys, id: string, ttl: int) {
    && (id in s.creating ==> id in s.used && s.creating[id].done <= 2 && PartlyNested(s, id, s.creating[id].done, ttl))
    && (id in s.used && id !in s.creating ==> Nested(s.kv, id))
    && (id in s.deleting ==> id !in s.creating && SidKey(id) !in s.kv)
    && (SidKey(id) in s.kv ==> id in s.used)
  }

  lemma SameIdStep(s: Keys, c: Command, ttl: int)
    requires Do(s, c, ttl).Some? && !c.Wait? && IsId(c.id) && IdOk(s, c.id, ttl)
    ensures IdOk(Do(s, c, ttl).value, c.id, ttl)
  {
    hide SidKey, AgentKey, IpKey;
    KeysApart(c.id, c.id);
  }

  lemma OtherIdStep(s: Keys, c: Command, ttl: int, other: string)
    requires Do(s, c, ttl).Some? && IsId(other) && IdOk(s, other, ttl)
    requires !c.Wait? ==> c.id != other && !NamesPart(c.id, other)
    ensures IdOk(Do(s, c, ttl).value, other, ttl)
  {
    hide SidKey, AgentKey, IpKey;
    OtherUntouched(s, c, ttl, other);
  }

  /** What a run keeps for an id whose parts no deletion names. */
  ghost predicate RunOk(s: Keys, id: string, ttl: int) {
    && (IsId(id) ==> IdOk(s, id, ttl))
    && (forall other :: other in s.used || other in s.creating ==> IsId(other))
    && (forall cookie :: cookie in s.deleting ==> !NamesPart(cookie, id))
  }

  lemma IdNamesNoPart(id: string, other: string)
    requires IsId(id)
    ensures !NamesPart(id, other)
  {
    assert (other + ":user_agent")[|other|] == ':' && (other + ":ip")[|other|] == ':';
  }

  lemma RunStepOk(s: Keys, c: Command, ttl: int, id: string)
    requires RunOk(s, id, ttl) && Do(s, c, ttl).Some?
    requires c.DelSid? ==> !NamesPart(c.id, id)
    ensures RunOk(Do(s, c, ttl).value, id, ttl)
  {
    hide SidKey, AgentKey, IpKey, IsId, NamesPart, IdOk;
    if c.BeginCreate? || c.SetNext? { IdNamesNoPart(c.id, id); }
    if IsId(id) {
      if !c.Wait? && c.id == id {
        SameIdStep(s, c, ttl);
      } else {
        OtherIdStep(s, c, ttl, id);
      }
    }
  }

  lemma {:induction false} RunKeepsOk(cs: seq<Command>, ttl: int, id: string)
    requires RunKeys(cs, ttl).Some? && NoneNames(cs, id)
    ensures RunOk(RunKeys(cs, ttl).value, id, ttl)
    decreases |cs|
  {
    if cs != [] {
      RunKeepsOk(cs[..|cs| - 1], ttl, id);
      RunStepOk(RunKeys(cs[..|cs| - 1], ttl).value, cs[|cs| - 1], ttl, id);
    }
  }

  /** While the sid key is live, so are the other two. */
  predicate InStep(kv: Kv, id: string, now: int) {
    Live(kv, SidKey(id), now).Some? ==> Live(kv, AgentKey(id), now).Some? && Live(kv, IpKey(id), now).Some?
  }

  /**
   Main theorem. However the commands of creations, renewals and logouts interleave, with
   cookies of any text, and whenever they stop half way: at every instant a created session
   whose sid key is live has both its other keys, as long as no cookie named one of them.
   */
  lemma KeyOrder(cs: seq<Command>, ttl: int, id: string)
    requires RunKeys(cs, ttl).Some? && NoneNames(cs, id)
    requires var s := RunKeys(cs, ttl).value; id in s.used && id !in s.creating
    ensures InStep(RunKeys(cs, ttl).value.kv, id, RunKeys(cs, ttl).value.clock)
  {
    RunKeepsOk(cs, ttl, id);
    assert IdOk(RunKeys(cs, ttl).value, id, ttl);
  }

  /** And the first cookie that names one of them while the session is live does break the order. */
  lemma KeyOrderEndsIff(cs: seq<Command>, ttl: int, id: string, cookie: string)
    requires RunKeys(cs, ttl).Some? && NoneNames(cs, id)
    requires var s := RunKeys(cs, ttl).value;
             id in s.used && id !in s.creating && Live(s.kv, SidKey(id), s.clock).Some? && cookie !in s.creating
    ensures var after := RunKeys(cs + [DelSid(cookie)], ttl);
            after.Some? && (InStep(after.value.kv, id, after.value.clock) <==> !NamesPart(cookie, id))
  {
    KeyOrder(cs, ttl, id);
    RunKeepsOk(cs, ttl, id);
    assert (cs + [DelSid(cookie)])[..|cs + [DelSid(cookie)]| - 1] == cs;
    CookieKeys(id, cookie);
    NotSuffixed(id);
    KeysApart(id, id);
    hide SidKey, AgentKey, IpKey, IdOk;
  }

  /**
   A logout takes any cookie text. It keeps the order for a session that is live and in
   order if and only if the cookie is not that session's id followed by ":user_agent" or ":ip".
   */
  lemma LogoutKeepsOrderIff(kv: Kv, cookie: string, id: string, now: int)
    requires IsId(id) && Live(kv, SidKey(id), now).Some? && InStep(kv, id, now)
    ensures InStep(Destroy(kv, cookie), id, now) <==> !NamesPart(cookie, id)
  {
    OtherKinds(id, cookie);
    OtherKinds(cookie, id);
    IdsApart(id, cookie);
    SameSid(id, cookie);
    KeysApart(id, id);
    NotSuffixed(id);
    KeyCases(kv, cookie, id, now, SidKey(id), AgentKey(id), IpKey(id), SidKey(cookie), AgentKey(cookie), IpKey(cookie));
  }

  lemma NotSuffixed(id: string)
    ensures id != id + ":user_agent" && id != id + ":ip"
  {
    assert |id + ":user_agent"| > |id| && |id + ":ip"| > |id|;
  }

  /** The case analysis of a logout, on the six keys as such. */
  lemma KeyCases(kv: Kv, cookie: string, id: string, now: int, sid: string, agent: string, ip: string, dSid: string, dAgent: string, dIp: string)
    requires sid == SidKey(id) && agent == AgentKey(id) && ip == IpKey(id)
    requires dSid == SidKey(cookie) && dAgent == AgentKey(cookie) && dIp == IpKey(cookie)
    requires Live(kv, sid, now).Some? && Live(kv, agent, now).Some? && Live(kv, ip, now).Some?
    requires sid != dAgent && sid != dIp && (sid == dSid <==> id == cookie)
    requires (agent == dSid || ip == dSid) <==> NamesPart(cookie, id)
    requires (agent == dAgent <==> id == cookie) && (ip == dIp <==> id == cookie) && agent != dIp && ip != dAgent
    requires id == cookie ==> !NamesPart(cookie, id)
    ensures InStep(Destroy(kv, cookie), id, now) <==> !NamesPart(cookie, id)
  {
    hide SidKey, AgentKey, IpKey, NamesPart;
    var after := Destroy(kv, cookie);
    assert forall k :: k in after <==> k in kv && k != dSid && k != dAgent && k != dIp;
    assert forall k :: k in after ==> after[k] == kv[k];
  }

  /** So the order can fail: logging out "a1:ip" leaves session "a1" without its address. */
  lemma LogoutCanBreakOrder()
    ensures var kv := Create(map[], "a1", "user", "agent", "10.0.0.1", 0, 60);
            InStep(kv, "a1", 0) && !InStep(Destroy(kv, "a1:ip"), "a1", 0)
  {
    var kv := Create(map[], "a1", "user", "agent", "10.0.0.1", 0, 60);
    KeysApart("a1", "a1");
    assert NamesPart("a1:ip", "a1");
    LogoutKeepsOrderIff(kv, "a1:ip", "a1", 0);
  }
}
