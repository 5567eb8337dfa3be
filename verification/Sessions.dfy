/** Login, renewal and logout over the three Redis keys of a session, one handler at a time. */
module Sessions {
  import opened Bank
  import opened KeyValue

  function SidKey(sid: string): string {
    "sid:" + sid
  }

  function AgentKey(sid: string): string {
    "sid:" + sid + ":user_agent"
  }

  function IpKey(sid: string): string {
    "sid:" + sid + ":ip"
  }

  /** Generated ids are hexadecimal, so they contain no colon; a cookie may be any text. */
  predicate IsId(sid: string) {
    ':' !in sid
  }

  /** The address of a client is never the empty text. */
  type Address = s: string | s != "" witness "0.0.0.0"

  /** The SETs of a new session, in their order. */
  function Create(kv: Kv, sid: string, username: string, agent: string, ip: string, now: int, ttl: int): Kv {
    Put(Put(Put(kv, SidKey(sid), username, now, ttl), AgentKey(sid), agent, now, ttl), IpKey(sid), ip, now, ttl)
  }

  /** The DELs of a cookie, in their order. */
  function Destroy(kv: Kv, cookie: string): Kv {
    Remove(Remove(Remove(kv, SidKey(cookie)), AgentKey(cookie)), IpKey(cookie))
  }

  /** A key that is not there reads as the empty text, because the error is dropped. */
  function TextOf(v: Option<string>): string {
    match v
    case None => ""
    case Some(text) => text
  }

  datatype Answer = Success(username: string) | Expired | AgentMismatch | IpMismatch | NoUser

  /** What renewal answers to a cookie, before it changes anything. */
  function RenewAnswer(kv: Kv, cookie: Option<string>, agent: string, ip: Address, now: int, userExists: bool): Answer {
    if cookie.None? then Expired
    else
      match Live(kv, SidKey(cookie.value), now)
      case None => Expired
      case Some(username) =>
        if TextOf(Live(kv, AgentKey(cookie.value), now)) != agent then AgentMismatch
        else if TextOf(Live(kv, IpKey(cookie.value), now)) != ip then IpMismatch
        else if !userExists then NoUser
        else Success(username)
  }

  class SessionServer {
    const store: Store
    const ttl: int

    constructor (store: Store, ttl: int)
      ensures this.store == store && this.ttl == ttl
    {
      this.store, this.ttl := store, ttl;
    }

    method SetSession(sid: string, username: string, agent: string, ip: string, now: int)
      modifies store
      ensures store.kv == Create(old(store.kv), sid, username, agent, ip, now, ttl)
    {
      store.Set("sid:" + sid, username, now, ttl);
      store.Set("sid:" + sid + ":user_agent", agent, now, ttl);
      store.Set("sid:" + sid + ":ip", ip, now, ttl);
    }

    method DeleteSession(cookie: string)
      modifies store
      ensures store.kv == Destroy(old(store.kv), cookie)
    {
      store.Del("sid:" + cookie);
      store.Del("sid:" + cookie + ":user_agent");
      store.Del("sid:" + cookie + ":ip");
    }

    /** loginUser, and the OAuth login, once the user is known and the credentials are checked. */
    method Login(username: string, verified: bool, agent: string, ip: Address, sid: string, now: int) returns (ok: bool)
      modifies store
      ensures ok == verified
      ensures store.kv == if verified then Create(old(store.kv), sid, username, agent, ip, now, ttl) else old(store.kv)
    {
      if !verified { return false; }
      SetSession(sid, username, agent, ip, now);
      return true;
    }

    /** renewAccessToken: the old session is replaced by one with a new id, or nothing happens. */
    method Renew(cookie: Option<string>, agent: string, ip: Address, sid: string, now: int, userExists: bool)
      returns (answer: Answer)
      modifies store
      ensures answer == RenewAnswer(old(store.kv), cookie, agent, ip, now, userExists)
      ensures answer.Success? ==>
                cookie.Some?
                && store.kv == Create(Destroy(old(store.kv), cookie.value), sid, answer.username, agent, ip, now, ttl)
      ensures !answer.Success? ==> store.kv == old(store.kv)
    {
      if cookie.None? { return Expired; }
      var ex := store.Exists("sid:" + cookie.value, now);
      if ex <= 0 { return Expired; }
      var username := store.Get("sid:" + cookie.value, now);
      if username.None? { return Expired; }
      var storedAgent := store.Get("sid:" + cookie.value + ":user_agent", now);
      var storedIp := store.Get("sid:" + cookie.value + ":ip", now);
      if TextOf(storedAgent) != agent { return AgentMismatch; }
      if TextOf(storedIp) != ip { return IpMismatch; }
      if !userExists { return NoUser; }
      DeleteSession(cookie.value);
      SetSession(sid, username.value, agent, ip, now);
      return Success(username.value);
    }

    method Logout(cookie: Option<string>)
      modifies store
      ensures store.kv == if cookie.Some? then Destroy(old(store.kv), cookie.value) else old(store.kv)
    {
      if cookie.Some? { DeleteSession(cookie.value); }
    }
  }

  // ---- which keys are which ----

  lemma SameSid(a: string, b: string)
    ensures SidKey(a) == SidKey(b) <==> a == b
    ensures AgentKey(a) == AgentKey(b) <==> a == b
    ensures IpKey(a) == IpKey(b) <==> a == b
  {
    assert a == SidKey(a)[4..] && b == SidKey(b)[4..];
    assert a == AgentKey(a)[4..|AgentKey(a)| - 11] && b == AgentKey(b)[4..|AgentKey(b)| - 11];
    assert a == IpKey(a)[4..|IpKey(a)| - 3] && b == IpKey(b)[4..|IpKey(b)| - 3];
  }

  lemma OtherKinds(a: string, b: string)
    ensures AgentKey(a) == SidKey(b) <==> b == a + ":user_agent"
    ensures IpKey(a) == SidKey(b) <==> b == a + ":ip"
    ensures AgentKey(a) != IpKey(b)
  {
    assert AgentKey(a) == SidKey(a + ":user_agent");
    assert IpKey(a) == SidKey(a + ":ip");
    SameSid(a + ":user_agent", b);
    SameSid(a + ":ip", b);
    assert AgentKey(a)[|AgentKey(a)| - 1] == 't' && IpKey(b)[|IpKey(b)| - 1] == 'p';
  }

  /** An id is never taken for another session's key of any kind. */
  lemma IdsApart(id: string, other: string)
    requires IsId(id)
    ensures SidKey(id) != AgentKey(other) && SidKey(id) != IpKey(other)
  {
    OtherKinds(other, id);
    assert (other + ":user_agent")[|other|] == ':' && (other + ":ip")[|other|] == ':';
  }

  /** Which keys of an id a cookie of any text can name. */
  lemma CookieKeys(id: string, cookie: string)
    requires IsId(id)
    ensures SidKey(cookie) == SidKey(id) <==> cookie == id
    ensures SidKey(cookie) == AgentKey(id) <==> cookie == id + ":user_agent"
    ensures SidKey(cookie) == IpKey(id) <==> cookie == id + ":ip"
    ensures AgentKey(cookie) != SidKey(id) && AgentKey(cookie) != IpKey(id) && (AgentKey(cookie) == AgentKey(id) <==> cookie == id)
    ensures IpKey(cookie) != SidKey(id) && IpKey(cookie) != AgentKey(id) && (IpKey(cookie) == IpKey(id) <==> cookie == id)
  {
    SameSid(cookie, id);
    OtherKinds(id, cookie);
    OtherKinds(cookie, id);
    IdsApart(id, cookie);
  }

  // ---- runs ----

  /** A session that was created; `parent` is the issue it renewed, none for a login. */
  datatype Issue = Issue(sid: string, username: string, agent: string, ip: Address, parent: Option<nat>)

  datatype State = State(kv: Kv, clock: int, issued: seq<Issue>)

  datatype Event =
    | Tick(time: int)
    | LoggedIn(username: string, agent: string, ip: Address, sid: string)
    | RenewAsked(cookie: string, agent: string, ip: Address, sid: string, userExists: bool)
    | LoggedOut(cookie: string)

  const NOBODY := State(map[], 0, [])

  /** Generated ids have never been used. */
  predicate FreshId(s: State, sid: string) {
    IsId(sid) && forall i :: 0 <= i < |s.issued| ==> s.issued[i].sid != sid
  }

  ghost function IndexOf(s: State, sid: string): Option<nat> {
    if exists i: nat :: i < |s.issued| && s.issued[i].sid == sid
    then var i: nat :| i < |s.issued| && s.issued[i].sid == sid; Some(i)
    else None
  }

  ghost function Next(s: State, e: Event, ttl: int): Option<State> {
    match e
    case Tick(time) => if time < s.clock then None else Some(s.(clock := time))
    case LoggedIn(username, agent, ip, sid) =>
      if !FreshId(s, sid) then None
      else Some(State(Create(s.kv, sid, username, agent, ip, s.clock, ttl), s.clock, s.issued + [Issue(sid, username, agent, ip, None)]))
    case RenewAsked(cookie, agent, ip, sid, userExists) =>
      (match RenewAnswer(s.kv, Some(cookie), agent, ip, s.clock, userExists)
       case Success(username) =>
         if !FreshId(s, sid) then None
         else Some(State(Create(Destroy(s.kv, cookie), sid, username, agent, ip, s.clock, ttl), s.clock,
                         s.issued + [Issue(sid, username, agent, ip, IndexOf(s, cookie))]))
       case _ => Some(s))
    case LoggedOut(cookie) => Some(s.(kv := Destroy(s.kv, cookie)))
  }

  ghost function Run(events: seq<Event>, ttl: int): Option<State>
    decreases |events|
  {
    if events == [] then Some(NOBODY)
    else
      match Run(events[..|events| - 1], ttl)
      case None => None
      case Some(m) => Next(m, events[|events| - 1], ttl)
  }

  ghost predicate Stored(s: State, i: nat)
    requires i < |s.issued|
  {
    SidKey(s.issued[i].sid) in s.kv
  }

  ghost predicate IsLive(s: State, i: nat)
    requires i < |s.issued|
  {
    Live(s.kv, SidKey(s.issued[i].sid), s.clock).Some?
  }
}
