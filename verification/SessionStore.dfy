/** What the store holds after any run of logins, renewals and logouts, and what renewal answers then. */
module SessionStore {
  import opened Bank
  import opened KeyValue
  import opened Sessions
  import opened SessionRuns

  /**
   What happened to the issued sessions: which were renewed or logged out, of which a logout
   named the agent key or the ip key, and when each was created.
   */
  datatype Facts = Facts(ended: set<string>, agents: set<string>, ips: set<string>, at: map<string, int>)

  /** A renewal took place if a session was issued in answer to it. */
  ghost predicate Renews(s: State, e: Event, ttl: int)
    requires Next(s, e, ttl).Some?
  {
    e.RenewAsked? && |Next(s, e, ttl).value.issued| > |s.issued|
  }

  ghost function Learn(f: Facts, s: State, e: Event, ttl: int): Facts
    requires Next(s, e, ttl).Some?
  {
    var issued, issued' := s.issued, Next(s, e, ttl).value.issued;
    Facts(
      f.ended + (set i: nat | i < |issued| && (e == LoggedOut(issued[i].sid) || (Renews(s, e, ttl) && e.cookie == issued[i].sid)) :: issued[i].sid),
      f.agents + (set i: nat | i < |issued| && e == LoggedOut(issued[i].sid + ":user_agent") :: issued[i].sid),
      f.ips + (set i: nat | i < |issued| && e == LoggedOut(issued[i].sid + ":ip") :: issued[i].sid),
      if |issued'| > |issued| then f.at[issued'[|issued|].sid := s.clock] else f.at)
  }

  ghost function FactsOf(events: seq<Event>, ttl: int): Facts
    requires Run(events, ttl).Some?
    decreases |events|
  {
    if events == [] then Facts({}, {}, {}, map[])
    else
      var rest := events[..|events| - 1];
      Learn(FactsOf(rest, ttl), Run(rest, ttl).value, events[|events| - 1], ttl)
  }

  ghost predicate Holds(kv: Kv, key: string, present: bool, value: string, deadline: int) {
    if present then key in kv && kv[key] == Slot(value, deadline) else key !in kv
  }

  /** The three keys of the i-th session are what the facts say. */
  ghost predicate SlotsOk(s: State, f: Facts, ttl: int, i: nat)
    requires i < |s.issued|
  {
    var it := s.issued[i];
    && it.sid in f.at
    && var end, there := f.at[it.sid] + ttl, it.sid !in f.ended;
       && Holds(s.kv, SidKey(it.sid), there, it.username, end)
       && Holds(s.kv, AgentKey(it.sid), there && it.sid !in f.agents, it.agent, end)
       && Holds(s.kv, IpKey(it.sid), there && it.sid !in f.ips, it.ip, end)
  }

  /** Facts are about issued sessions. */
  ghost predicate FactsKnown(s: State, f: Facts) {
    forall sid :: sid in f.ended || sid in f.agents || sid in f.ips ==> exists i: nat :: i < |s.issued| && s.issued[i].sid == sid
  }

  /** What the facts say of one session after an event. */
  lemma LearnAt(f: Facts, s: State, e: Event, ttl: int, i: nat)
    requires Next(s, e, ttl).Some? && i < |s.issued|
    ensures var f', sid := Learn(f, s, e, ttl), s.issued[i].sid;
            && (sid in f'.ended <==> sid in f.ended || e == LoggedOut(sid) || (Renews(s, e, ttl) && e.cookie == sid))
            && (sid in f'.agents <==> sid in f.agents || e == LoggedOut(sid + ":user_agent"))
            && (sid in f'.ips <==> sid in f.ips || e == LoggedOut(sid + ":ip"))
  {
  }

  lemma LogoutSlots(s: State, f: Facts, ttl: int, cookie: string, i: nat)
    requires i < |s.issued| && IsId(s.issued[i].sid) && SlotsOk(s, f, ttl, i)
    ensures SlotsOk(Next(s, LoggedOut(cookie), ttl).value, Learn(f, s, LoggedOut(cookie), ttl), ttl, i)
  {
    CookieKeys(s.issued[i].sid, cookie);
    LearnAt(f, s, LoggedOut(cookie), ttl, i);
    hide SidKey, AgentKey, IpKey;
  }

  /** A new session leaves the keys of the others alone. */
  lemma CreateSlots(kv: Kv, it: Issue, now: int, ttl: int, other: string, key: string)
    requires IsId(it.sid) && IsId(other) && it.sid != other
    requires key == SidKey(other) || key == AgentKey(other) || key == IpKey(other)
    ensures var kv' := Create(kv, it.sid, it.username, it.agent, it.ip, now, ttl);
            (key in kv' <==> key in kv) && (key in kv ==> kv'[key] == kv[key])
  {
    KeysApart(it.sid, other);
    hide SidKey, AgentKey, IpKey;
  }

  lemma OwnSlots(kv: Kv, it: Issue, now: int, ttl: int)
    requires IsId(it.sid)
    ensures var kv' := Create(kv, it.sid, it.username, it.agent, it.ip, now, ttl);
            && Holds(kv', SidKey(it.sid), true, it.username, now + ttl)
            && Holds(kv', AgentKey(it.sid), true, it.agent, now + ttl)
            && Holds(kv', IpKey(it.sid), true, it.ip, now + ttl)
  {
    KeysApart(it.sid, it.sid);
    hide SidKey, AgentKey, IpKey;
  }

  /** Deleting a session of the same kind leaves the keys of the others alone. */
  lemma DestroySlots(kv: Kv, cookie: string, other: string, key: string)
    requires IsId(cookie) && IsId(other) && cookie != other
    requires key == SidKey(other) || key == AgentKey(other) || key == IpKey(other)
    ensures (key in Destroy(kv, cookie) <==> key in kv) && (key in kv ==> Destroy(kv, cookie)[key] == kv[key])
  {
    KeysApart(cookie, other);
    hide SidKey, AgentKey, IpKey;
  }

  lemma OtherSlots(kv: Kv, kv': Kv, s: State, s': State, f: Facts, f': Facts, ttl: int, i: nat)
    requires i < |s.issued| && i < |s'.issued| && s'.issued[i] == s.issued[i] && s.kv == kv && s'.kv == kv' && SlotsOk(s, f, ttl, i)
    requires var sid := s.issued[i].sid;
             && (sid in f'.ended <==> sid in f.ended) && (sid in f'.agents <==> sid in f.agents) && (sid in f'.ips <==> sid in f.ips)
             && sid in f'.at && f'.at[sid] == f.at[sid]
             && forall key :: key == SidKey(sid) || key == AgentKey(sid) || key == IpKey(sid) ==>
                  (key in kv' <==> key in kv) && (key in kv ==> kv'[key] == kv[key])
    ensures SlotsOk(s', f', ttl, i)
  {
    hide SidKey, AgentKey, IpKey;
  }

  /** A login, or the issue that answers a renewal, adds one session with its three keys. */
  lemma IssueSlots(s: State, f: Facts, e: Event, ttl: int, kv: Kv, i: nat)
    requires Next(s, e, ttl).Some? && !e.LoggedOut? && |Next(s, e, ttl).value.issued| == |s.issued| + 1
    requires var s' := Next(s, e, ttl).value; var it := s'.issued[|s.issued|];
             && s'.issued == s.issued + [it] && FreshId(s, it.sid)
             && s'.kv == Create(kv, it.sid, it.username, it.agent, it.ip, s.clock, ttl)
    requires i <= |s.issued| && (i < |s.issued| ==> IsId(s.issued[i].sid) && SlotsOk(s, f, ttl, i)) && FactsKnown(s, f)
    requires if e.RenewAsked? then IsId(e.cookie) && kv == Destroy(s.kv, e.cookie) else kv == s.kv
    ensures SlotsOk(Next(s, e, ttl).value, Learn(f, s, e, ttl), ttl, i)
  {
    hide SidKey, AgentKey, IpKey, Create, Destroy, Next, Learn;
    var s', f' := Next(s, e, ttl).value, Learn(f, s, e, ttl);
    var it := s'.issued[|s.issued|];
    LearnIssue(f, s, e, ttl);
    if i == |s.issued| {
      OwnSlots(kv, it, s.clock, ttl);
    } else {
      var sid := s.issued[i].sid;
      LearnAt(f, s, e, ttl, i);
      if e.RenewAsked? && e.cookie == sid {
        RenewedSlots(s.kv, it, s.clock, ttl, sid);
      } else {
        forall key | key == SidKey(sid) || key == AgentKey(sid) || key == IpKey(sid)
          ensures (key in s'.kv <==> key in s.kv) && (key in s.kv ==> s'.kv[key] == s.kv[key])
        {
          CreateSlots(kv, it, s.clock, ttl, sid, key);
          if e.RenewAsked? { DestroySlots(s.kv, e.cookie, sid, key); }
        }
        OtherSlots(s.kv, s'.kv, s, s', f, f', ttl, i);
      }
    }
  }

  lemma LearnIssue(f: Facts, s: State, e: Event, ttl: int)
    requires Next(s, e, ttl).Some? && FactsKnown(s, f) && |Next(s, e, ttl).value.issued| == |s.issued| + 1 && !e.LoggedOut?
    requires FreshId(s, Next(s, e, ttl).value.issued[|s.issued|].sid)
    ensures var f', sid := Learn(f, s, e, ttl), Next(s, e, ttl).value.issued[|s.issued|].sid;
            && sid !in f'.ended && sid !in f'.agents && sid !in f'.ips && f'.at == f.at[sid := s.clock]
  {
  }

  lemma RenewedSlots(kv: Kv, it: Issue, now: int, ttl: int, sid: string)
    requires IsId(sid) && IsId(it.sid) && sid != it.sid
    ensures var kv' := Create(Destroy(kv, sid), it.sid, it.username, it.agent, it.ip, now, ttl);
            SidKey(sid) !in kv' && AgentKey(sid) !in kv' && IpKey(sid) !in kv'
  {
    KeysApart(it.sid, sid);
    hide SidKey, AgentKey, IpKey;
  }

  ghost predicate Exact(s: State, f: Facts, ttl: int) {
    FactsKnown(s, f) && forall i :: 0 <= i < |s.issued| ==> SlotsOk(s, f, ttl, i)
  }

  lemma KnownStep(s: State, f: Facts, e: Event, ttl: int)
    requires Next(s, e, ttl).Some? && FactsKnown(s, f)
    ensures s.issued <= Next(s, e, ttl).value.issued && FactsKnown(Next(s, e, ttl).value, Learn(f, s, e, ttl))
  {
    hide Create, Destroy, RenewAnswer;
    var s', f' := Next(s, e, ttl).value, Learn(f, s, e, ttl);
    forall sid | sid in f'.ended || sid in f'.agents || sid in f'.ips
      ensures exists i: nat :: i < |s'.issued| && s'.issued[i].sid == sid
    {
      var i: nat :| i < |s.issued| && s.issued[i].sid == sid;
      assert s'.issued[i].sid == sid;
    }
  }

  /** A renewal that succeeds presents an id. */
  lemma RenewedId(s: State, named: set<string>, e: Event, ttl: int)
    requires StoreInv(s, named) && Next(s, e, ttl).Some? && Renews(s, e, ttl)
    ensures RenewAnswer(s.kv, Some(e.cookie), e.agent, e.ip, s.clock, e.userExists).Success? && IsId(e.cookie)
  {
    var i := RenewedIs(s, named, e.cookie, e.agent, e.ip, e.userExists);
  }

  lemma SlotsStep(s: State, named: set<string>, f: Facts, e: Event, ttl: int, i: nat)
    requires StoreInv(s, named) && Exact(s, f, ttl) && Next(s, e, ttl).Some? && i < |Next(s, e, ttl).value.issued|
    ensures SlotsOk(Next(s, e, ttl).value, Learn(f, s, e, ttl), ttl, i)
  {
    if e.RenewAsked? && Renews(s, e, ttl) { RenewedId(s, named, e, ttl); }
    hide SidKey, AgentKey, IpKey, Create, Destroy, RenewAnswer, SlotsOk;
    match e
    case Tick(time) =>
      LearnAt(f, s, e, ttl, i);
      TickSlots(s, f, e, ttl, i);
    case LoggedOut(cookie) => LogoutSlots(s, f, ttl, cookie, i);
    case LoggedIn(_, _, _, _) => IssueSlots(s, f, e, ttl, s.kv, i);
    case RenewAsked(cookie, _, _, _, _) =>
      if Renews(s, e, ttl) {
        IssueSlots(s, f, e, ttl, Destroy(s.kv, cookie), i);
      } else {
        LearnAt(f, s, e, ttl, i);
        TickSlots(s, f, e, ttl, i);
      }
  }

  lemma TickSlots(s: State, f: Facts, e: Event, ttl: int, i: nat)
    requires i < |s.issued| && SlotsOk(s, f, ttl, i) && Next(s, e, ttl).Some?
    requires Next(s, e, ttl).value.kv == s.kv && Next(s, e, ttl).value.issued == s.issued && !e.LoggedOut?
    ensures SlotsOk(Next(s, e, ttl).value, Learn(f, s, e, ttl), ttl, i)
  {
    LearnAt(f, s, e, ttl, i);
    hide SidKey, AgentKey, IpKey, Next;
  }

  lemma {:induction false} RunExact(events: seq<Event>, ttl: int)
    requires Run(events, ttl).Some?
    ensures Exact(Run(events, ttl).value, FactsOf(events, ttl), ttl)
    decreases |events|
  {
    if events != [] {
      var rest, e := events[..|events| - 1], events[|events| - 1];
      var s, f := Run(rest, ttl).value, FactsOf(rest, ttl);
      RunExact(rest, ttl);
      RunInv(rest, ttl);
      KnownStep(s, f, e, ttl);
      forall i | 0 <= i < |Next(s, e, ttl).value.issued|
        ensures SlotsOk(Next(s, e, ttl).value, Learn(f, s, e, ttl), ttl, i)
      {
        SlotsStep(s, Named(rest, ttl), f, e, ttl, i);
      }
    }
  }

  /** The keys, spelled out. */
  lemma KeyTexts(sid: string)
    ensures "sid:" + sid == SidKey(sid)
    ensures "sid:" + sid + ":user_agent" == AgentKey(sid)
    ensures "sid:" + sid + ":ip" == IpKey(sid)
  {
  }

  lemma SlotsAre(events: seq<Event>, ttl: int, i: nat)
    requires Run(events, ttl).Some? && i < |Run(events, ttl).value.issued|
    ensures SlotsOk(Run(events, ttl).value, FactsOf(events, ttl), ttl, i)
  {
    RunExact(events, ttl);
  }

  /**
   Main theorem. After any run, each issued session that was neither renewed nor logged out
   has its three keys, with the user, agent and address it was issued for and one time to
   live from its creation, except those keys that a logout named; every other session has
   none.
   */
  lemma StoreIs(events: seq<Event>, ttl: int, i: nat)
    requires Run(events, ttl).Some? && i < |Run(events, ttl).value.issued|
    ensures var s, f := Run(events, ttl).value, FactsOf(events, ttl);
            var it := s.issued[i];
            && it.sid in f.at
            && var end, there := f.at[it.sid] + ttl, it.sid !in f.ended;
               && Holds(s.kv, "sid:" + it.sid, there, it.username, end)
               && Holds(s.kv, "sid:" + it.sid + ":user_agent", there && it.sid !in f.agents, it.agent, end)
               && Holds(s.kv, "sid:" + it.sid + ":ip", there && it.sid !in f.ips, it.ip, end)
  {
    hide Run, FactsOf, Holds, SidKey, AgentKey, IpKey;
    SlotsAre(events, ttl, i);
    KeyTexts(Run(events, ttl).value.issued[i].sid);
  }

  /** And there are no other keys. */
  lemma NoOtherKeys(events: seq<Event>, ttl: int, key: string) returns (i: nat)
    requires Run(events, ttl).Some? && key in Run(events, ttl).value.kv
    ensures i < |Run(events, ttl).value.issued|
    ensures var sid := Run(events, ttl).value.issued[i].sid;
            key == "sid:" + sid || key == "sid:" + sid + ":user_agent" || key == "sid:" + sid + ":ip"
  {
    RunInv(events, ttl);
    i :| i < |Run(events, ttl).value.issued| && KeyOf(Run(events, ttl).value, i, key);
    KeyTexts(Run(events, ttl).value.issued[i].sid);
    hide Run, SidKey, AgentKey, IpKey, StoreInv, Named;
  }

  /** A session is live exactly until it is renewed or logged out, or its time to live is over. */
  lemma LiveIff(events: seq<Event>, ttl: int, i: nat)
    requires Run(events, ttl).Some? && i < |Run(events, ttl).value.issued|
    ensures var s, f := Run(events, ttl).value, FactsOf(events, ttl);
            && s.issued[i].sid in f.at
            && (IsLive(s, i) <==> s.issued[i].sid !in f.ended && s.clock < f.at[s.issued[i].sid] + ttl)
  {
    RunExact(events, ttl);
    assert SlotsOk(Run(events, ttl).value, FactsOf(events, ttl), ttl, i);
    hide Run, FactsOf, SidKey;
  }

  /**
   What renewal answers to a live session's id. Without a logout that named one of its keys:
   success for its user exactly when the agent and the address are those it was issued for
   and the user exists.
   */
  lemma RenewAnswers(events: seq<Event>, ttl: int, i: nat, agent: string, ip: Address, userExists: bool)
    requires Run(events, ttl).Some? && i < |Run(events, ttl).value.issued| && IsLive(Run(events, ttl).value, i)
    ensures var s, f := Run(events, ttl).value, FactsOf(events, ttl);
            var it := s.issued[i];
            var answer := RenewAnswer(s.kv, Some(it.sid), agent, ip, s.clock, userExists);
            var sameAgent, sameIp := agent == (if it.sid in f.agents then "" else it.agent), it.sid !in f.ips && ip == it.ip;
            && (answer == AgentMismatch <==> !sameAgent)
            && (answer == IpMismatch <==> sameAgent && !sameIp)
            && (answer == NoUser <==> sameAgent && sameIp && !userExists)
            && (answer.Success? <==> sameAgent && sameIp && userExists)
            && (answer.Success? ==> answer.username == it.username)
            && answer != Expired
  {
    RunExact(events, ttl);
    assert SlotsOk(Run(events, ttl).value, FactsOf(events, ttl), ttl, i);
    hide Run, FactsOf, SidKey, AgentKey, IpKey;
  }

  /**
   And to any other cookie: it has expired, unless its text names a live agent key or ip
   key of a session; then it fails on the empty agent or the missing address.
   */
  lemma RenewRefuses(events: seq<Event>, ttl: int, cookie: Option<string>, agent: string, ip: Address, userExists: bool)
    requires Run(events, ttl).Some?
    requires var s := Run(events, ttl).value;
             cookie.Some? ==> forall i :: 0 <= i < |s.issued| && s.issued[i].sid == cookie.value ==> !IsLive(s, i)
    ensures var s := Run(events, ttl).value;
            var answer := RenewAnswer(s.kv, cookie, agent, ip, s.clock, userExists);
            var found := cookie.Some? && Live(s.kv, "sid:" + cookie.value, s.clock).Some?;
            && answer == (if !found then Expired else if agent != "" then AgentMismatch else IpMismatch)
            && (found ==> exists i: nat :: i < |s.issued|
                            && (cookie.value == s.issued[i].sid + ":user_agent" || cookie.value == s.issued[i].sid + ":ip"))
  {
    if cookie.Some? && Live(Run(events, ttl).value.kv, SidKey(cookie.value), Run(events, ttl).value.clock).Some? {
      RunInv(events, ttl);
      var i := StrangeCookie(Run(events, ttl).value, Named(events, ttl), cookie.value);
    }
    hide AgentKey, IpKey;
  }

  /** A cookie that finds a key without being an id finds neither agent nor address. */
  lemma StrangeCookie(s: State, named: set<string>, cookie: string) returns (i: nat)
    requires StoreInv(s, named) && SidKey(cookie) in s.kv
    requires forall i :: 0 <= i < |s.issued| ==> s.issued[i].sid != cookie
    ensures i < |s.issued| && (cookie == s.issued[i].sid + ":user_agent" || cookie == s.issued[i].sid + ":ip")
    ensures AgentKey(cookie) !in s.kv && IpKey(cookie) !in s.kv
  {
    hide SidKey, AgentKey, IpKey, ValuesOk, AgentOk;
    i :| i < |s.issued| && KeyOf(s, i, SidKey(cookie));
    CookieKeys(s.issued[i].sid, cookie);
    forall k | k == AgentKey(cookie) || k == IpKey(cookie)
      ensures k !in s.kv
    {
      forall j: nat | j < |s.issued|
        ensures !KeyOf(s, j, k)
      {
        CookieKeys(s.issued[j].sid, cookie);
      }
    }
  }

  // ---- what ends a session, and what does not touch it ----

  /** The event logs the session out or renews it. */
  ghost predicate Ends(s: State, e: Event, ttl: int, sid: string)
    requires Next(s, e, ttl).Some?
  {
    e == LoggedOut(sid) || (Renews(s, e, ttl) && e.cookie == sid)
  }

  lemma RunOneMore(events: seq<Event>, e: Event, ttl: int)
    requires Run(events, ttl).Some?
    ensures Run(events + [e], ttl) == Next(Run(events, ttl).value, e, ttl)
    ensures Run(events + [e], ttl).Some? ==> FactsOf(events + [e], ttl) == Learn(FactsOf(events, ttl), Run(events, ttl).value, e, ttl)
  {
    assert (events + [e])[..|events + [e]| - 1] == events;
  }

  /** Sessions stay issued, and what has ended stays ended. */
  lemma {:induction false} EndedStays(events: seq<Event>, more: seq<Event>, ttl: int, i: nat)
    requires Run(events + more, ttl).Some? && Run(events, ttl).Some? && i < |Run(events, ttl).value.issued|
    ensures i < |Run(events + more, ttl).value.issued|
    ensures Run(events + more, ttl).value.issued[i] == Run(events, ttl).value.issued[i]
    ensures var sid := Run(events, ttl).value.issued[i].sid;
            sid in FactsOf(events, ttl).ended ==> sid in FactsOf(events + more, ttl).ended
    decreases |more|
  {
    if more == [] {
      assert events + more == events;
    } else {
      var n := |more| - 1;
      assert (events + more)[..|events + more| - 1] == events + more[..n];
      EndedStays(events, more[..n], ttl, i);
      RunExact(events + more[..n], ttl);
      KnownStep(Run(events + more[..n], ttl).value, FactsOf(events + more[..n], ttl), more[n], ttl);
    }
  }

  lemma EndedKeys(events: seq<Event>, e: Event, more: seq<Event>, ttl: int, i: nat)
    requires Run(events, ttl).Some? && Next(Run(events, ttl).value, e, ttl).Some? && Run(events + [e] + more, ttl).Some?
    requires i < |Run(events, ttl).value.issued| && Ends(Run(events, ttl).value, e, ttl, Run(events, ttl).value.issued[i].sid)
    ensures i < |Run(events + [e] + more, ttl).value.issued|
    ensures Run(events + [e] + more, ttl).value.issued[i] == Run(events, ttl).value.issued[i]
    ensures Run(events, ttl).value.issued[i].sid in FactsOf(events + [e] + more, ttl).ended
  {
    RunExact(events, ttl);
    KnownStep(Run(events, ttl).value, FactsOf(events, ttl), e, ttl);
    LearnAt(FactsOf(events, ttl), Run(events, ttl).value, e, ttl, i);
    RunOneMore(events, e, ttl);
    hide Run, FactsOf, Learn, Next, Exact, FactsKnown;
    EndedStays(events + [e], more, ttl, i);
  }

  /** Once a session is logged out or renewed, none of its three keys is there again, however the run goes on. */
  lemma EndedForGood(events: seq<Event>, e: Event, more: seq<Event>, ttl: int, i: nat)
    requires Run(events, ttl).Some? && Next(Run(events, ttl).value, e, ttl).Some? && Run(events + [e] + more, ttl).Some?
    requires i < |Run(events, ttl).value.issued| && Ends(Run(events, ttl).value, e, ttl, Run(events, ttl).value.issued[i].sid)
    ensures var sid, kv := Run(events, ttl).value.issued[i].sid, Run(events + [e] + more, ttl).value.kv;
            "sid:" + sid !in kv && "sid:" + sid + ":user_agent" !in kv && "sid:" + sid + ":ip" !in kv
  {
    hide Run, FactsOf, Next, Ends, SidKey, AgentKey, IpKey;
    EndedKeys(events, e, more, ttl, i);
    SlotsAre(events + [e] + more, ttl, i);
    KeyTexts(Run(events, ttl).value.issued[i].sid);
  }

  ghost predicate SameKey(kv: Kv, kv': Kv, key: string) {
    (key in kv' <==> key in kv) && (key in kv ==> kv'[key] == kv[key])
  }

  lemma OthersStay(s: State, s': State, f: Facts, f': Facts, e: Event, ttl: int, i: nat)
    requires i < |s.issued| && i < |s'.issued| && s'.issued[i] == s.issued[i] && SlotsOk(s, f, ttl, i) && SlotsOk(s', f', ttl, i)
    requires var sid := s.issued[i].sid;
             && f'.at[sid] == f.at[sid]
             && (sid in f'.ended <==> sid in f.ended)
             && (sid in f'.agents <==> sid in f.agents || e == LoggedOut(sid + ":user_agent"))
             && (sid in f'.ips <==> sid in f.ips || e == LoggedOut(sid + ":ip"))
    ensures var sid := s.issued[i].sid;
            && SameKey(s.kv, s'.kv, SidKey(sid))
            && (if e == LoggedOut(sid + ":user_agent") then AgentKey(sid) !in s'.kv else SameKey(s.kv, s'.kv, AgentKey(sid)))
            && (if e == LoggedOut(sid + ":ip") then IpKey(sid) !in s'.kv else SameKey(s.kv, s'.kv, IpKey(sid)))
  {
    hide SidKey, AgentKey, IpKey;
  }

  /**
   Nothing else touches a session's keys: after any event that does not end the session,
   each of its three keys is as before, unless the event is a logout whose text names just
   that key; then it is gone.
   */
  lemma OthersUntouched(events: seq<Event>, e: Event, ttl: int, i: nat)
    requires Run(events, ttl).Some? && Next(Run(events, ttl).value, e, ttl).Some?
    requires i < |Run(events, ttl).value.issued| && !Ends(Run(events, ttl).value, e, ttl, Run(events, ttl).value.issued[i].sid)
    ensures var s, s' := Run(events, ttl).value, Next(Run(events, ttl).value, e, ttl).value;
            var sid := s.issued[i].sid;
            && SameKey(s.kv, s'.kv, "sid:" + sid)
            && (if e == LoggedOut(sid + ":user_agent") then "sid:" + sid + ":user_agent" !in s'.kv
                else SameKey(s.kv, s'.kv, "sid:" + sid + ":user_agent"))
            && (if e == LoggedOut(sid + ":ip") then "sid:" + sid + ":ip" !in s'.kv
                else SameKey(s.kv, s'.kv, "sid:" + sid + ":ip"))
  {
    var s, f := Run(events, ttl).value, FactsOf(events, ttl);
    var s', f' := Next(s, e, ttl).value, Learn(f, s, e, ttl);
    hide Run, FactsOf, Next, Learn, SidKey, AgentKey, IpKey, SameKey;
    RunOneMore(events, e, ttl);
    RunExact(events, ttl);
    RunInv(events, ttl);
    KnownStep(s, f, e, ttl);
    LearnAt(f, s, e, ttl, i);
    SlotsStep(s, Named(events, ttl), f, e, ttl, i);
    LearnTime(s, Named(events, ttl), f, e, ttl, i);
    OthersStay(s, s', f, f', e, ttl, i);
    KeyTexts(s.issued[i].sid);
  }

  /** The time of creation does not change. */
  lemma LearnTime(s: State, named: set<string>, f: Facts, e: Event, ttl: int, i: nat)
    requires StoreInv(s, named) && Next(s, e, ttl).Some? && i < |s.issued| && s.issued[i].sid in f.at
    ensures var sid := s.issued[i].sid;
            sid in Learn(f, s, e, ttl).at && Learn(f, s, e, ttl).at[sid] == f.at[sid]
  {
    hide Create, Destroy, RenewAnswer, StoreInv;
  }
}
