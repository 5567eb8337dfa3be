/** Whole runs of logins, renewals and logouts: where every live session comes from. */
module SessionRuns {
  import opened Bank
  import opened KeyValue
  import opened Sessions
  import Sums

  /** The key belongs to the i-th issued session. */
  predicate KeyOf(s: State, i: nat, k: string)
    requires i < |s.issued|
  {
    k == SidKey(s.issued[i].sid) || k == AgentKey(s.issued[i].sid) || k == IpKey(s.issued[i].sid)
  }

  /** The stored values are those the session was created with. */
  ghost predicate ValuesOk(s: State, i: nat)
    requires i < |s.issued|
  {
    var it := s.issued[i];
    && (SidKey(it.sid) in s.kv ==> s.kv[SidKey(it.sid)].value == it.username)
    && (AgentKey(it.sid) in s.kv ==> s.kv[AgentKey(it.sid)].value == it.agent)
    && (IpKey(it.sid) in s.kv ==> s.kv[IpKey(it.sid)].value == it.ip)
  }

  /** The session's agent key is gone once a logout has named it, and otherwise outlives the sid key. */
  ghost predicate AgentOk(s: State, named: set<string>, i: nat)
    requires i < |s.issued|
  {
    var sid := s.issued[i].sid;
    SidKey(sid) in s.kv ==>
      if sid in named then AgentKey(sid) !in s.kv
      else AgentKey(sid) in s.kv && s.kv[SidKey(sid)].deadline <= s.kv[AgentKey(sid)].deadline
  }

  /** The i-th issue is a login, or renews an earlier session of the same client that is gone. */
  ghost predicate ParentOk(s: State, named: set<string>, i: nat)
    requires i < |s.issued|
  {
    s.issued[i].parent.Some? ==>
      var p := s.issued[i].parent.value;
      && p < i && !Stored(s, p)
      && s.issued[i].username == s.issued[p].username
      && s.issued[i].ip == s.issued[p].ip
      && s.issued[i].agent == if s.issued[p].sid in named then "" else s.issued[p].agent
  }

  ghost predicate StoreInv(s: State, named: set<string>) {
    && (forall k :: k in s.kv ==> exists i: nat :: i < |s.issued| && KeyOf(s, i, k))
    && (forall i :: 0 <= i < |s.issued| ==> ValuesOk(s, i) && IsId(s.issued[i].sid) && AgentOk(s, named, i))
    && (forall i, j :: 0 <= i < j < |s.issued| ==> s.issued[i].sid != s.issued[j].sid)
    && (forall sid :: sid in named ==> exists i: nat :: i < |s.issued| && s.issued[i].sid == sid)
  }

  /** The stored sessions whose agent key the event, a logout of any text, names. */
  ghost function NamedBy(s: State, e: Event): set<string> {
    set i: nat | i < |s.issued| && Stored(s, i) && e == LoggedOut(s.issued[i].sid + ":user_agent") :: s.issued[i].sid
  }

  /** The sessions whose agent key was logged out as if it were a session, while they were stored. */
  ghost function Named(events: seq<Event>, ttl: int): set<string>
    requires Run(events, ttl).Some?
    decreases |events|
  {
    if events == [] then {}
    else
      var rest := events[..|events| - 1];
      Named(rest, ttl) + NamedBy(Run(rest, ttl).value, events[|events| - 1])
  }

  lemma CookieKnown(s: State, i: nat, j: nat, cookie: string)
    requires i < |s.issued| && j < |s.issued| && IsId(s.issued[i].sid) && IsId(s.issued[j].sid)
    requires KeyOf(s, i, SidKey(cookie)) && KeyOf(s, j, IpKey(cookie))
    ensures s.issued[i].sid == cookie
  {
    CookieKeys(s.issued[i].sid, cookie);
    CookieKeys(s.issued[j].sid, cookie);
    ColonInside(s.issued[i].sid);
    hide SidKey, AgentKey, IpKey;
  }

  /** A cookie whose session keys of both other kinds are in use is an issued id. */
  lemma CookieIsId(s: State, named: set<string>, cookie: string) returns (i: nat)
    requires StoreInv(s, named) && SidKey(cookie) in s.kv && IpKey(cookie) in s.kv
    ensures i < |s.issued| && s.issued[i].sid == cookie
  {
    hide SidKey, AgentKey, IpKey, KeyOf;
    i :| i < |s.issued| && KeyOf(s, i, SidKey(cookie));
    var j: nat :| j < |s.issued| && KeyOf(s, j, IpKey(cookie));
    CookieKnown(s, i, j, cookie);
  }

  lemma ColonInside(sid: string)
    ensures ':' in sid + ":user_agent" && ':' in sid + ":ip"
  {
    assert (sid + ":user_agent")[|sid|] == ':' && (sid + ":ip")[|sid|] == ':';
  }

  /** A renewal that succeeds presents a live issued id, its user and its address. */
  lemma RenewedIs(s: State, named: set<string>, cookie: string, agent: string, ip: Address, userExists: bool) returns (i: nat)
    requires StoreInv(s, named)
    requires RenewAnswer(s.kv, Some(cookie), agent, ip, s.clock, userExists).Success?
    ensures i < |s.issued| && s.issued[i].sid == cookie && IndexOf(s, cookie) == Some(i)
    ensures IsLive(s, i) && s.issued[i].ip == ip
    ensures RenewAnswer(s.kv, Some(cookie), agent, ip, s.clock, userExists).username == s.issued[i].username
    ensures agent == if cookie in named then "" else s.issued[i].agent
  {
    hide SidKey, AgentKey, IpKey, KeyOf, IndexOf;
    i := CookieIsId(s, named, cookie);
    assert ValuesOk(s, i) && AgentOk(s, named, i);
    IndexIs(s, named, i);
  }

  lemma IndexIs(s: State, named: set<string>, i: nat)
    requires StoreInv(s, named) && i < |s.issued|
    ensures IndexOf(s, s.issued[i].sid) == Some(i)
  {
    hide ValuesOk, AgentOk, KeyOf;
  }

  /** The three keys of two different ids do not meet. */
  lemma KeysApart(sid: string, other: string)
    requires IsId(sid) && IsId(other)
    ensures SidKey(sid) != AgentKey(other) && SidKey(sid) != IpKey(other) && AgentKey(sid) != SidKey(other)
    ensures IpKey(sid) != SidKey(other) && AgentKey(sid) != IpKey(other) && IpKey(sid) != AgentKey(other)
    ensures sid != other ==> SidKey(sid) != SidKey(other) && AgentKey(sid) != AgentKey(other) && IpKey(sid) != IpKey(other)
  {
    SameSid(sid, other);
    IdsApart(sid, other);
    IdsApart(other, sid);
    OtherKinds(sid, other);
    OtherKinds(other, sid);
  }

  lemma KnownKeys(s: State, s': State)
    requires forall k :: k in s.kv ==> exists i: nat :: i < |s.issued| && KeyOf(s, i, k)
    requires s.issued <= s'.issued
    requires forall k :: k in s'.kv && k !in s.kv ==> |s'.issued| > |s.issued| && KeyOf(s', |s.issued|, k)
    ensures forall k :: k in s'.kv ==> exists i: nat :: i < |s'.issued| && KeyOf(s', i, k)
  {
    forall k | k in s'.kv
      ensures exists i: nat :: i < |s'.issued| && KeyOf(s', i, k)
    {
      if k in s.kv {
        var i: nat :| i < |s.issued| && KeyOf(s, i, k);
        assert s'.issued[i] == s.issued[i];
        assert KeyOf(s', i, k);
      }
    }
  }

  lemma DestroyAt(s: State, named: set<string>, cookie: string, i: nat)
    requires i < |s.issued| && IsId(s.issued[i].sid) && ValuesOk(s, i) && AgentOk(s, named, i)
    ensures ValuesOk(s.(kv := Destroy(s.kv, cookie)), i)
    ensures AgentOk(s.(kv := Destroy(s.kv, cookie)), named + NamedBy(s, LoggedOut(cookie)), i)
  {
    var sid := s.issued[i].sid;
    CookieKeys(sid, cookie);
    NamesOne(s, cookie, sid);
    if Stored(s, i) && cookie == sid + ":user_agent" { assert sid in NamedBy(s, LoggedOut(cookie)); }
    hide SidKey, AgentKey, IpKey, NamedBy;
  }

  /** A logout text names the agent key of one session at most. */
  lemma NamesOne(s: State, cookie: string, sid: string)
    ensures sid in NamedBy(s, LoggedOut(cookie)) ==> cookie == sid + ":user_agent"
  {
  }

  /** Deleting keys keeps the store well formed. */
  lemma DestroyInv(s: State, named: set<string>, cookie: string)
    requires StoreInv(s, named)
    ensures StoreInv(s.(kv := Destroy(s.kv, cookie)), named + NamedBy(s, LoggedOut(cookie)))
  {
    hide SidKey, AgentKey, IpKey;
    var s', named' := s.(kv := Destroy(s.kv, cookie)), named + NamedBy(s, LoggedOut(cookie));
    KnownKeys(s, s');
    forall i | 0 <= i < |s'.issued|
      ensures ValuesOk(s', i) && AgentOk(s', named', i)
    {
      assert ValuesOk(s, i);
      DestroyAt(s, named, cookie, i);
    }
    forall sid | sid in named'
      ensures exists i: nat :: i < |s'.issued| && s'.issued[i].sid == sid
    {
      if sid !in named { var i: nat :| i < |s.issued| && s.issued[i].sid == sid; }
    }
  }

  /** An id names nothing but its own session. */
  lemma IdNamesNone(s: State, id: string)
    requires IsId(id)
    ensures NamedBy(s, LoggedOut(id)) == {}
  {
    forall i: nat | i < |s.issued|
      ensures id != s.issued[i].sid + ":user_agent"
    {
      ColonInside(s.issued[i].sid);
    }
  }

  ghost function Created(s: State, it: Issue, ttl: int): State {
    State(Create(s.kv, it.sid, it.username, it.agent, it.ip, s.clock, ttl), s.clock, s.issued + [it])
  }

  lemma CreateOther(s: State, named: set<string>, it: Issue, ttl: int, i: nat)
    requires i < |s.issued| && IsId(s.issued[i].sid) && IsId(it.sid) && s.issued[i].sid != it.sid && ValuesOk(s, i)
    requires AgentOk(s, named, i)
    ensures ValuesOk(Created(s, it, ttl), i) && AgentOk(Created(s, it, ttl), named, i)
  {
    hide SidKey, AgentKey, IpKey;
    KeysApart(s.issued[i].sid, it.sid);
    KeysApart(it.sid, it.sid);
  }

  lemma CreateSelf(s: State, named: set<string>, it: Issue, ttl: int)
    requires IsId(it.sid) && it.sid !in named
    ensures ValuesOk(Created(s, it, ttl), |s.issued|) && AgentOk(Created(s, it, ttl), named, |s.issued|)
    ensures forall k :: k in Created(s, it, ttl).kv && k !in s.kv ==> KeyOf(Created(s, it, ttl), |s.issued|, k)
  {
    hide SidKey, AgentKey, IpKey;
    KeysApart(it.sid, it.sid);
  }

  lemma CreateInv(s: State, named: set<string>, it: Issue, ttl: int)
    requires StoreInv(s, named) && FreshId(s, it.sid)
    ensures StoreInv(Created(s, it, ttl), named)
  {
    hide SidKey, AgentKey, IpKey;
    var s' := Created(s, it, ttl);
    CreateSelf(s, named, it, ttl);
    KnownKeys(s, s');
    forall sid | sid in named
      ensures exists i: nat :: i < |s'.issued| && s'.issued[i].sid == sid
    {
      var i: nat :| i < |s.issued| && s.issued[i].sid == sid;
      assert s'.issued[i].sid == sid;
    }
    forall i | 0 <= i < |s'.issued|
      ensures ValuesOk(s', i) && AgentOk(s', named, i) && IsId(s'.issued[i].sid)
    {
      if i < |s.issued| {
        assert ValuesOk(s, i);
        CreateOther(s, named, it, ttl, i);
      }
    }
  }

  /** Following the parents leads to a login. */
  ghost function Root(issued: seq<Issue>, i: nat): nat
    decreases i
  {
    if i < |issued| && issued[i].parent.Some? && issued[i].parent.value < i then Root(issued, issued[i].parent.value) else i
  }

  lemma {:induction false} RootStays(issued: seq<Issue>, more: seq<Issue>, i: nat)
    requires i < |issued|
    ensures Root(issued + more, i) == Root(issued, i)
    decreases i
  {
    if issued[i].parent.Some? && issued[i].parent.value < i {
      RootStays(issued, more, issued[i].parent.value);
    }
  }

  /** Of two sessions with the same login the earlier one is gone. */
  ghost predicate RootsApart(s: State) {
    forall i, j :: 0 <= i < j < |s.issued| && Root(s.issued, i) == Root(s.issued, j) ==> !Stored(s, i)
  }

  ghost predicate LineageInv(s: State, named: set<string>) {
    (forall i :: 0 <= i < |s.issued| ==> ParentOk(s, named, i)) && RootsApart(s)
  }

  lemma CreateKeepsGone(kv: Kv, sid: string, it: Issue, now: int, ttl: int)
    requires IsId(sid) && sid != it.sid && SidKey(sid) !in kv
    ensures SidKey(sid) !in Create(kv, it.sid, it.username, it.agent, it.ip, now, ttl)
  {
    SameSid(sid, it.sid);
    IdsApart(sid, it.sid);
  }

  /** Adding a session to a lineage whose last one, if any, has just gone. */
  lemma ExtendLineage(s: State, named: set<string>, it: Issue, ttl: int)
    requires StoreInv(s, named) && LineageInv(s, named) && FreshId(s, it.sid)
    requires it.parent.Some? ==>
               && it.parent.value < |s.issued| && !Stored(s, it.parent.value)
               && it.username == s.issued[it.parent.value].username && it.ip == s.issued[it.parent.value].ip
               && it.agent == if s.issued[it.parent.value].sid in named then "" else s.issued[it.parent.value].agent
    requires it.parent.Some? ==> forall i :: 0 <= i < |s.issued| && Root(s.issued, i) == Root(s.issued, it.parent.value) ==> !Stored(s, i)
    ensures LineageInv(Created(s, it, ttl), named)
  {
    ExtendAt(s, named, it, ttl);
    ExtendParents(s, named, it, ttl);
    var s' := Created(s, it, ttl);
    hide SidKey, AgentKey, IpKey, StoreInv, Created, ParentOk, Stored;
  }

  lemma ExtendParents(s: State, named: set<string>, it: Issue, ttl: int)
    requires StoreInv(s, named) && LineageInv(s, named) && FreshId(s, it.sid)
    requires it.parent.Some? ==>
               && it.parent.value < |s.issued| && !Stored(s, it.parent.value)
               && it.username == s.issued[it.parent.value].username && it.ip == s.issued[it.parent.value].ip
               && it.agent == if s.issued[it.parent.value].sid in named then "" else s.issued[it.parent.value].agent
    ensures forall i :: 0 <= i < |Created(s, it, ttl).issued| ==> ParentOk(Created(s, it, ttl), named, i)
  {
    ExtendAt(s, named, it, ttl);
    hide SidKey, AgentKey, IpKey, StoreInv, RootsApart, Stored, Create, Root;
    var s' := Created(s, it, ttl);
    forall i | 0 <= i < |s'.issued|
      ensures ParentOk(s', named, i)
    {
      if i < |s.issued| { assert ParentOk(s, named, i); }
    }
  }

  /** The sessions before a new one keep their logins, and those that are gone stay gone. */
  lemma ExtendAt(s: State, named: set<string>, it: Issue, ttl: int)
    requires StoreInv(s, named) && FreshId(s, it.sid)
    ensures var s' := Created(s, it, ttl);
            forall i :: 0 <= i < |s.issued| ==>
              && Root(s'.issued, i) == Root(s.issued, i) < |s.issued|
              && (!Stored(s, i) ==> !Stored(s', i))
  {
    hide SidKey, AgentKey, IpKey, Create, ValuesOk, AgentOk, KeyOf;
    var s' := Created(s, it, ttl);
    forall i | 0 <= i < |s.issued|
      ensures Root(s'.issued, i) == Root(s.issued, i) < |s.issued|
      ensures !Stored(s, i) ==> !Stored(s', i)
    {
      RootStays(s.issued, [it], i);
      RootBelow(s.issued, i);
      if !Stored(s, i) { CreateKeepsGone(s.kv, s.issued[i].sid, it, s.clock, ttl); }
    }
  }

  lemma {:induction false} RootBelow(issued: seq<Issue>, i: nat)
    ensures Root(issued, i) <= i
    decreases i
  {
    if i < |issued| && issued[i].parent.Some? && issued[i].parent.value < i { RootBelow(issued, issued[i].parent.value); }
  }

  /** A session that is gone cannot lose its agent key any more. */
  lemma GoneNotNamed(s: State, named: set<string>, e: Event, i: nat)
    requires StoreInv(s, named) && i < |s.issued| && !Stored(s, i)
    ensures s.issued[i].sid !in NamedBy(s, e)
  {
    forall j: nat | j < |s.issued| && Stored(s, j)
      ensures s.issued[j].sid != s.issued[i].sid
    {
    }
  }

  lemma DestroyParent(s: State, named: set<string>, cookie: string, i: nat)
    requires StoreInv(s, named) && i < |s.issued| && ParentOk(s, named, i)
    ensures ParentOk(s.(kv := Destroy(s.kv, cookie)), named + NamedBy(s, LoggedOut(cookie)), i)
  {
    if s.issued[i].parent.Some? { GoneNotNamed(s, named, LoggedOut(cookie), s.issued[i].parent.value); }
    hide SidKey, AgentKey, IpKey, NamedBy, StoreInv;
  }

  lemma DestroyRoots(s: State, cookie: string)
    requires RootsApart(s)
    ensures RootsApart(s.(kv := Destroy(s.kv, cookie)))
  {
    hide SidKey, AgentKey, IpKey, Root;
  }

  lemma DestroyLineage(s: State, named: set<string>, cookie: string)
    requires StoreInv(s, named) && LineageInv(s, named)
    ensures LineageInv(s.(kv := Destroy(s.kv, cookie)), named + NamedBy(s, LoggedOut(cookie)))
  {
    DestroyRoots(s, cookie);
    hide RootsApart, NamedBy, Destroy;
    var s', named' := s.(kv := Destroy(s.kv, cookie)), named + NamedBy(s, LoggedOut(cookie));
    forall i | 0 <= i < |s'.issued|
      ensures ParentOk(s', named', i)
    {
      DestroyParent(s, named, cookie, i);
    }
  }

  /** A login starts a lineage of its own. */
  lemma LoginStep(s: State, named: set<string>, e: Event, ttl: int)
    requires StoreInv(s, named) && LineageInv(s, named) && e.LoggedIn? && Next(s, e, ttl).Some?
    ensures StoreInv(Next(s, e, ttl).value, named) && LineageInv(Next(s, e, ttl).value, named)
  {
    var it := Issue(e.sid, e.username, e.agent, e.ip, None);
    CreateInv(s, named, it, ttl);
    ExtendLineage(s, named, it, ttl);
  }

  /** A renewal carries one on: the old session is gone before the new one is there. */
  lemma RenewStep(s: State, named: set<string>, e: Event, ttl: int)
    requires StoreInv(s, named) && LineageInv(s, named) && e.RenewAsked? && Next(s, e, ttl).Some?
    ensures StoreInv(Next(s, e, ttl).value, named) && LineageInv(Next(s, e, ttl).value, named)
    ensures Next(s, e, ttl).value == s
            || (|Next(s, e, ttl).value.issued| == |s.issued| + 1 && Next(s, e, ttl).value.issued[|s.issued|].parent.Some?)
  {
    var answer := RenewAnswer(s.kv, Some(e.cookie), e.agent, e.ip, s.clock, e.userExists);
    if answer.Success? {
      var p := RenewedIs(s, named, e.cookie, e.agent, e.ip, e.userExists);
      hide RenewAnswer, SidKey, AgentKey, IpKey, Root, RootsApart;
      var it := Issue(e.sid, answer.username, e.agent, e.ip, Some(p));
      var mid := s.(kv := Destroy(s.kv, e.cookie));
      IdNamesNone(s, e.cookie);
      assert named + {} == named;
      DestroyInv(s, named, e.cookie);
      DestroyLineage(s, named, e.cookie);
      CreateInv(mid, named, it, ttl);
      LineageApart(s, named, p);
      RelativesGone(s, p, mid);
      ExtendLineage(mid, named, it, ttl);
    }
  }

  lemma LineageApart(s: State, named: set<string>, p: nat)
    requires LineageInv(s, named) && p < |s.issued| && IsLive(s, p)
    ensures RootsApart(s) && Stored(s, p)
  {
  }

  /** All earlier sessions of a live one's lineage were gone, and now it is gone too. */
  lemma RelativesGone(s: State, p: nat, mid: State)
    requires RootsApart(s) && p < |s.issued| && Stored(s, p)
    requires mid.issued == s.issued && mid.kv == Destroy(s.kv, s.issued[p].sid)
    ensures forall i :: 0 <= i < |s.issued| && Root(s.issued, i) == Root(s.issued, p) ==> !Stored(mid, i)
  {
    hide SidKey, AgentKey, IpKey, Root;
    forall i | 0 <= i < |s.issued| && Root(s.issued, i) == Root(s.issued, p)
      ensures !Stored(mid, i)
    {
      if i < p { assert !Stored(s, i); }
    }
  }

  lemma Step(s: State, named: set<string>, e: Event, ttl: int)
    requires StoreInv(s, named) && LineageInv(s, named) && Next(s, e, ttl).Some?
    ensures var named' := named + NamedBy(s, e);
            StoreInv(Next(s, e, ttl).value, named') && LineageInv(Next(s, e, ttl).value, named')
  {
    if !e.LoggedOut? { assert named + NamedBy(s, e) == named; }
    match e
    case Tick(time) => TickInv(s, named, time);
    case LoggedIn(_, _, _, _) => LoginStep(s, named, e, ttl);
    case RenewAsked(_, _, _, _, _) => RenewStep(s, named, e, ttl);
    case LoggedOut(cookie) =>
      DestroyInv(s, named, cookie);
      DestroyLineage(s, named, cookie);
  }

  lemma TickAt(s: State, named: set<string>, time: int, i: nat)
    requires i < |s.issued| && ValuesOk(s, i) && ParentOk(s, named, i) && AgentOk(s, named, i)
    ensures var s' := s.(clock := time);
            ValuesOk(s', i) && ParentOk(s', named, i) && AgentOk(s', named, i)
  {
    hide SidKey, AgentKey, IpKey;
  }

  lemma TickRoots(s: State, time: int)
    requires RootsApart(s)
    ensures RootsApart(s.(clock := time))
  {
    hide SidKey, Root;
  }

  lemma TickInv(s: State, named: set<string>, time: int)
    requires StoreInv(s, named) && LineageInv(s, named)
    ensures StoreInv(s.(clock := time), named) && LineageInv(s.(clock := time), named)
  {
    hide SidKey, AgentKey, IpKey, KeyOf, RootsApart, ValuesOk, AgentOk, ParentOk;
    var s' := s.(clock := time);
    KnownKeys(s, s');
    TickRoots(s, time);
    forall i | 0 <= i < |s'.issued|
      ensures ValuesOk(s', i) && AgentOk(s', named, i) && ParentOk(s', named, i)
    {
      TickAt(s, named, time, i);
    }
  }

  lemma {:induction false} RunInv(events: seq<Event>, ttl: int)
    requires Run(events, ttl).Some?
    ensures StoreInv(Run(events, ttl).value, Named(events, ttl)) && LineageInv(Run(events, ttl).value, Named(events, ttl))
    decreases |events|
  {
    if events != [] {
      var rest := events[..|events| - 1];
      RunInv(rest, ttl);
      Step(Run(rest, ttl).value, Named(rest, ttl), events[|events| - 1], ttl);
    }
  }

  /** The login of a lineage, and what stays the same along it. */
  lemma {:induction false} RootSame(s: State, named: set<string>, i: nat)
    requires LineageInv(s, named) && i < |s.issued|
    ensures var r := Root(s.issued, i);
            && r <= i && s.issued[r].parent == None
            && s.issued[i].username == s.issued[r].username && s.issued[i].ip == s.issued[r].ip
            && (s.issued[i].agent == s.issued[r].agent || s.issued[i].agent == "")
    decreases i
  {
    assert ParentOk(s, named, i);
    if s.issued[i].parent.Some? { RootSame(s, named, s.issued[i].parent.value); }
  }

  /** A renewal chain: a login, then each the renewal of the one before. */
  ghost predicate IsChain(issued: seq<Issue>, path: seq<nat>) {
    && path != []
    && (forall n :: 0 <= n < |path| ==> path[n] < |issued|)
    && issued[path[0]].parent == None
    && forall n :: 0 < n < |path| ==> issued[path[n]].parent == Some(path[n - 1])
  }

  /** There is at most one chain that ends in a session. */
  lemma {:induction false} ChainUnique(s: State, named: set<string>, path: seq<nat>, path': seq<nat>)
    requires LineageInv(s, named) && IsChain(s.issued, path) && IsChain(s.issued, path')
    requires path[|path| - 1] == path'[|path'| - 1]
    ensures path == path'
    decreases |path|
  {
    var n, n' := |path| - 1, |path'| - 1;
    assert n > 0 ==> s.issued[path[n]].parent == Some(path[n - 1]);
    assert n' > 0 ==> s.issued[path'[n']].parent == Some(path'[n' - 1]);
    if n > 0 && n' > 0 {
      ChainUnique(s, named, path[..n], path'[..n']);
      assert path == path[..n] + [path[n]] && path' == path'[..n'] + [path'[n']];
    }
  }

  lemma {:induction false} ChainExists(s: State, named: set<string>, i: nat) returns (path: seq<nat>)
    requires LineageInv(s, named) && i < |s.issued|
    ensures IsChain(s.issued, path) && path[|path| - 1] == i && path[0] == Root(s.issued, i)
    decreases i
  {
    assert ParentOk(s, named, i);
    if s.issued[i].parent.None? {
      path := [i];
    } else {
      var before := ChainExists(s, named, s.issued[i].parent.value);
      path := before + [i];
    }
  }

  /** Some session of the chain before its last lost its agent key while it was stored. */
  ghost predicate LostBefore(issued: seq<Issue>, named: set<string>, path: seq<nat>)
    requires IsChain(issued, path)
  {
    exists n :: 0 <= n < |path| - 1 && issued[path[n]].sid in named
  }

  /** Along a chain the user agent stays that of the login, until an agent key is lost; then it is empty. */
  lemma {:induction false} ChainAgent(s: State, named: set<string>, path: seq<nat>)
    requires LineageInv(s, named) && IsChain(s.issued, path)
    ensures s.issued[path[|path| - 1]].agent == if LostBefore(s.issued, named, path) then "" else s.issued[path[0]].agent
    decreases |path|
  {
    var n := |path| - 1;
    if n > 0 {
      assert s.issued[path[n]].parent == Some(path[n - 1]);
      assert ParentOk(s, named, path[n]);
      var shorter := path[..n];
      ChainAgent(s, named, shorter);
      assert LostBefore(s.issued, named, path)
             <==> s.issued[path[n - 1]].sid in named || LostBefore(s.issued, named, shorter) by {
        if LostBefore(s.issued, named, path) {
          var m :| 0 <= m < n && s.issued[path[m]].sid in named;
          if m < n - 1 { assert shorter[m] == path[m]; }
        }
        if LostBefore(s.issued, named, shorter) {
          var m :| 0 <= m < n - 1 && s.issued[shorter[m]].sid in named;
          assert path[m] == shorter[m];
        }
      }
    }
  }

  /**
   Main theorem. In every run every live session ends exactly one renewal chain, which
   starts with a login of the same user from the same address; no other live session comes
   from that login. Its user agent is that of the login, unless a logout named the agent
   key of an earlier session of the chain while that was stored; then it is empty.
   */
  lemma LiveSessionDescends(events: seq<Event>, ttl: int, i: nat) returns (path: seq<nat>)
    requires Run(events, ttl).Some? && i < |Run(events, ttl).value.issued| && IsLive(Run(events, ttl).value, i)
    ensures var s := Run(events, ttl).value;
            && IsChain(s.issued, path) && path[|path| - 1] == i
            && (forall other :: IsChain(s.issued, other) && other[|other| - 1] == i ==> other == path)
            && s.kv[SidKey(s.issued[i].sid)].value == s.issued[path[0]].username
            && s.issued[i].ip == s.issued[path[0]].ip
            && s.issued[i].agent == (if LostBefore(s.issued, Named(events, ttl), path) then "" else s.issued[path[0]].agent)
            && (forall j :: 0 <= j < |s.issued| && j != i && IsLive(s, j) ==> Root(s.issued, j) != path[0])
  {
    var s, named := Run(events, ttl).value, Named(events, ttl);
    RunInv(events, ttl);
    assert ValuesOk(s, i);
    path := ChainExists(s, named, i);
    RootSame(s, named, i);
    ChainAgent(s, named, path);
    forall other | IsChain(s.issued, other) && other[|other| - 1] == i
      ensures other == path
    {
      ChainUnique(s, named, other, path);
    }
    forall j | 0 <= j < |s.issued| && j != i && IsLive(s, j)
      ensures Root(s.issued, j) != path[0]
    {
      assert Stored(s, i) && Stored(s, j);
    }
  }

  /** A live session has its agent key exactly when no logout named it. */
  lemma AgentKeyLiveIff(events: seq<Event>, ttl: int, i: nat)
    requires Run(events, ttl).Some? && i < |Run(events, ttl).value.issued| && IsLive(Run(events, ttl).value, i)
    ensures var s := Run(events, ttl).value;
            Live(s.kv, AgentKey(s.issued[i].sid), s.clock)
            == if s.issued[i].sid in Named(events, ttl) then None else Some(s.issued[i].agent)
  {
    RunInv(events, ttl);
    var s := Run(events, ttl).value;
    assert ValuesOk(s, i) && AgentOk(s, Named(events, ttl), i);
  }

  function LoginCount(events: seq<Event>): nat
    decreases |events|
  {
    if events == [] then 0
    else LoginCount(events[..|events| - 1]) + if events[|events| - 1].LoggedIn? then 1 else 0
  }

  ghost function LiveSet(s: State): set<nat> {
    set i: nat | i < |s.issued| && IsLive(s, i)
  }

  ghost function Logins(issued: seq<Issue>): set<nat> {
    set i: nat | i < |issued| && issued[i].parent == None
  }

  lemma LoginsSnoc(issued: seq<Issue>, it: Issue)
    ensures |Logins(issued + [it])| == |Logins(issued)| + if it.parent.None? then 1 else 0
  {
    if it.parent.None? {
      assert Logins(issued + [it]) == Logins(issued) + {|issued|};
    } else {
      assert Logins(issued + [it]) == Logins(issued);
    }
  }

  /** Only a login adds a session without a parent. */
  lemma LoginsStep(s: State, named: set<string>, e: Event, ttl: int)
    requires StoreInv(s, named) && LineageInv(s, named) && Next(s, e, ttl).Some?
    ensures |Logins(Next(s, e, ttl).value.issued)| == |Logins(s.issued)| + if e.LoggedIn? then 1 else 0
  {
    var s' := Next(s, e, ttl).value;
    if e.RenewAsked? { RenewStep(s, named, e, ttl); }
    if s'.issued != s.issued {
      LoginsSnoc(s.issued, s'.issued[|s.issued|]);
      assert s'.issued == s.issued + [s'.issued[|s.issued|]];
    }
  }

  lemma {:induction false} LoginsCounted(events: seq<Event>, ttl: int)
    requires Run(events, ttl).Some?
    ensures |Logins(Run(events, ttl).value.issued)| == LoginCount(events)
    decreases |events|
  {
    if events == [] {
      assert Logins([]) == {};
    } else {
      var rest := events[..|events| - 1];
      LoginsCounted(rest, ttl);
      RunInv(rest, ttl);
      LoginsStep(Run(rest, ttl).value, Named(rest, ttl), events[|events| - 1], ttl);
    }
  }

  ghost function Roots(issued: seq<Issue>, live: set<nat>): set<nat> {
    set i | i in live :: Root(issued, i)
  }

  lemma {:induction false} RootsAreAsMany(issued: seq<Issue>, live: set<nat>)
    requires forall i, j :: i in live && j in live && i != j ==> Root(issued, i) != Root(issued, j)
    ensures |Roots(issued, live)| == |live|
    decreases |live|
  {
    if live != {} {
      var i := Sums.Pick(live);
      var rest := live - {i};
      RootsAreAsMany(issued, rest);
      assert Root(issued, i) !in Roots(issued, rest);
      assert Roots(issued, live) == Roots(issued, rest) + {Root(issued, i)};
    }
  }

  lemma LiveRootsDiffer(s: State, named: set<string>, i: nat, j: nat)
    requires LineageInv(s, named) && i in LiveSet(s) && j in LiveSet(s) && i < j
    ensures Root(s.issued, i) != Root(s.issued, j)
  {
    assert Stored(s, i);
  }

  /** There are never more live sessions than there were logins. */
  lemma LiveAtMostLogins(events: seq<Event>, ttl: int)
    requires Run(events, ttl).Some?
    ensures |LiveSet(Run(events, ttl).value)| <= LoginCount(events)
  {
    var s, named := Run(events, ttl).value, Named(events, ttl);
    RunInv(events, ttl);
    LoginsCounted(events, ttl);
    var live := LiveSet(s);
    forall i, j | i in live && j in live && i != j
      ensures Root(s.issued, i) != Root(s.issued, j)
    {
      if i < j { LiveRootsDiffer(s, named, i, j); } else { LiveRootsDiffer(s, named, j, i); }
    }
    RootsAreAsMany(s.issued, live);
    forall r | r in Roots(s.issued, live)
      ensures r in Logins(s.issued)
    {
      var i :| i in live && r == Root(s.issued, i);
      RootSame(s, named, i);
    }
    Sums.SubsetNotLarger(Roots(s.issued, live), Logins(s.issued));
  }

  /** Once gone, by renewal, logout or otherwise, a session's key never comes back. */
  lemma GoneStep(s: State, named: set<string>, e: Event, ttl: int, i: nat)
    requires StoreInv(s, named) && LineageInv(s, named) && Next(s, e, ttl).Some? && i < |s.issued| && !Stored(s, i)
    ensures s.issued <= Next(s, e, ttl).value.issued && !Stored(Next(s, e, ttl).value, i)
  {
    var sid := s.issued[i].sid;
    assert ValuesOk(s, i);
    if e.LoggedIn? {
      CreateKeepsGone(s.kv, sid, Issue(e.sid, e.username, e.agent, e.ip, None), s.clock, ttl);
    } else if e.RenewAsked? && RenewAnswer(s.kv, Some(e.cookie), e.agent, e.ip, s.clock, e.userExists).Success? {
      CreateKeepsGone(Destroy(s.kv, e.cookie), sid, Issue(e.sid, sid, e.agent, e.ip, None), s.clock, ttl);
    }
  }

  /** A renewed or logged-out session is never live again, however the run goes on. */
  lemma {:induction false} NeverLiveAgain(events: seq<Event>, more: seq<Event>, ttl: int, i: nat)
    requires Run(events + more, ttl).Some? && Run(events, ttl).Some?
    requires i < |Run(events, ttl).value.issued|
    requires var s := Run(events, ttl).value;
             !Stored(s, i) || exists j :: i < j < |s.issued| && s.issued[j].parent == Some(i)
    ensures i < |Run(events + more, ttl).value.issued|
    ensures Run(events + more, ttl).value.issued[i] == Run(events, ttl).value.issued[i]
    ensures !Stored(Run(events + more, ttl).value, i) && !IsLive(Run(events + more, ttl).value, i)
    decreases |more|
  {
    if more == [] {
      assert events + more == events;
      RunInv(events, ttl);
      var s := Run(events, ttl).value;
      if j :| i < j < |s.issued| && s.issued[j].parent == Some(i) {
        assert ParentOk(s, Named(events, ttl), j);
      }
    } else {
      var n := |more| - 1;
      assert (events + more)[..|events + more| - 1] == events + more[..n];
      NeverLiveAgain(events, more[..n], ttl, i);
      RunInv(events + more[..n], ttl);
      GoneStep(Run(events + more[..n], ttl).value, Named(events + more[..n], ttl), more[n], ttl, i);
    }
  }

  /** Logging out takes the session away at once. */
  lemma LogoutEnds(s: State, i: nat, ttl: int)
    requires i < |s.issued|
    ensures !Stored(Next(s, LoggedOut(s.issued[i].sid), ttl).value, i)
  {
  }

  /** The user agent can be lost: "a2" is live for the empty agent although the login had another. */
  lemma AgentLost()
    ensures var events := [LoggedIn("user", "agent", "10.0.0.1", "a1"),
                           LoggedOut("a1:user_agent"),
                           RenewAsked("a1", "", "10.0.0.1", "a2", true)];
            var after := Run(events, 60);
            after.Some? && |after.value.issued| == 2 && IsLive(after.value, 1)
            && after.value.issued[1].parent == Some(0)
            && after.value.issued[0].agent == "agent" && after.value.issued[1].agent == ""
  {
    var e0, e1, e2 := LoggedIn("user", "agent", "10.0.0.1", "a1"), LoggedOut("a1:user_agent"), RenewAsked("a1", "", "10.0.0.1", "a2", true);
    var s1 := State(Create(map[], "a1", "user", "agent", "10.0.0.1", 0, 60), 0, [Issue("a1", "user", "agent", "10.0.0.1", None)]);
    var s2 := s1.(kv := Destroy(s1.kv, "a1:user_agent"));
    LostStates(s1, s2);
    var s3 := Next(s2, e2, 60).value;
    assert [e0, e1, e2][..2] == [e0, e1] && [e0, e1][..1] == [e0] && [e0][..0] == [];
    assert Run([e0], 60) == Some(s1);
    assert Run([e0, e1], 60) == Some(s2);
    assert Run([e0, e1, e2], 60) == Some(s3);
  }

  lemma LostStates(s1: State, s2: State)
    requires s1 == State(Create(map[], "a1", "user", "agent", "10.0.0.1", 0, 60), 0, [Issue("a1", "user", "agent", "10.0.0.1", None)])
    requires s2 == s1.(kv := Destroy(s1.kv, "a1:user_agent"))
    ensures Next(NOBODY, LoggedIn("user", "agent", "10.0.0.1", "a1"), 60) == Some(s1)
    ensures Next(s1, LoggedOut("a1:user_agent"), 60) == Some(s2)
    ensures var s3 := Next(s2, RenewAsked("a1", "", "10.0.0.1", "a2", true), 60);
            s3.Some? && |s3.value.issued| == 2 && IsLive(s3.value, 1)
            && s3.value.issued[0] == s1.issued[0]
            && s3.value.issued[1].parent == Some(0) && s3.value.issued[1].agent == ""
  {
    hide SidKey, AgentKey, IpKey, Create, Destroy, RenewAnswer, IsLive;
    assert FreshId(NOBODY, "a1");
    assert NOBODY.issued + [s1.issued[0]] == s1.issued;
    LostAnswer(s1.kv);
    assert FreshId(s2, "a2");
    assert s2.issued[0].sid == "a1" && IndexOf(s2, "a1") == Some(0);
    CreatedLive(Destroy(s2.kv, "a1"), "a2", "user", "", "10.0.0.1", 0, 60);
    assert IsLive(Next(s2, RenewAsked("a1", "", "10.0.0.1", "a2", true), 60).value, 1) by { LiveMeans(Next(s2, RenewAsked("a1", "", "10.0.0.1", "a2", true), 60).value, 1); }
  }

  /** Without its agent key the session answers to an empty user agent. */
  lemma LostAnswer(kv: Kv)
    requires kv == Create(map[], "a1", "user", "agent", "10.0.0.1", 0, 60)
    ensures RenewAnswer(Destroy(kv, "a1:user_agent"), Some("a1"), "", "10.0.0.1", 0, true) == Success("user")
  {
    KeysApart("a1", "a1");
    CookieKeys("a1", "a1:user_agent");
    assert "a1:user_agent" == "a1" + ":user_agent" && "a1:user_agent" != "a1" + ":ip";
    hide SidKey, AgentKey, IpKey;
  }

  lemma CreatedLive(kv: Kv, sid: string, username: string, agent: string, ip: string, now: int, ttl: int)
    requires IsId(sid) && ttl > 0
    ensures Live(Create(kv, sid, username, agent, ip, now, ttl), SidKey(sid), now) == Some(username)
  {
    KeysApart(sid, sid);
    hide SidKey, AgentKey, IpKey;
  }

  lemma LiveMeans(s: State, i: nat)
    requires i < |s.issued| && Live(s.kv, SidKey(s.issued[i].sid), s.clock).Some?
    ensures IsLive(s, i)
  {
  }
}
