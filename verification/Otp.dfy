/**
 One-time passwords: the worker stores a secret and mails the code of the current time
 step, the middleware checks a code against the stored secret and consumes it. Times are
 whole seconds, `period` is both the time step and the time to live.
 */
module Otp {
  import opened Bank
  import opened KeyValue

  function OtpKey(username: string): string {
    "otp:" + username
  }

  /** The code of a secret in a time step (the HMAC and its truncation are not modelled). */
  type Coder = (string, int) -> string

  /** Section 4.2 of RFC 6238 with T0 = 0: the number of whole periods since the epoch. */
  function TimeStep(time: int, period: int): int
    requires period > 0
  {
    time / period
  }

  datatype Outcome = Malformed | Expired | Invalid | Accepted

  /** The middleware's decision on a submitted code. */
  function Check(kv: Kv, code: Coder, username: string, otp: Option<string>, now: int, period: int): Outcome
    requires period > 0
  {
    if otp.None? then Malformed
    else
      match Live(kv, OtpKey(username), now)
      case None => Expired
      case Some(secret) => if code(secret, TimeStep(now, period)) == otp.value then Accepted else Invalid
  }

  datatype IssueError = NoUser | MailFailed

  class OtpService {
    const store: Store
    const period: int
    const code: Coder

    constructor (store: Store, period: int, code: Coder)
      ensures this.store == store && this.period == period && this.code == code
    {
      this.store, this.period, this.code := store, period, code;
    }

    /**
     ProcessTaskSendVerifyEmail: the code belongs to the time `now` of its computation,
     the secret is stored at `at`. A failed mail leaves the secret in place.
     */
    method ProcessTaskSendVerifyEmail(username: string, secret: string, now: int, at: int, userExists: bool, mailSent: bool)
      returns (mailed: Option<string>, err: Option<IssueError>)
      requires period > 0
      modifies store
      ensures store.kv == if userExists then Put(old(store.kv), OtpKey(username), secret, at, period) else old(store.kv)
      ensures err == if !userExists then Some(NoUser) else if !mailSent then Some(MailFailed) else None
      ensures mailed == if userExists && mailSent then Some(code(secret, TimeStep(now, period))) else None
    {
      var otp := code(secret, now / period);
      if !userExists { return None, Some(NoUser); }
      store.Set(OtpKey(username), secret, at, period);
      if !mailSent { return None, Some(MailFailed); }
      return Some(otp), None;
    }

    /** verifyOTPMiddleware around its handler, which does not touch this store. */
    method VerifyOTP(username: string, otp: Option<string>, now: int) returns (outcome: Outcome)
      requires period > 0
      modifies store
      ensures outcome == Check(old(store.kv), code, username, otp, now, period)
      ensures store.kv == if outcome.Accepted? then Remove(old(store.kv), OtpKey(username)) else old(store.kv)
    {
      if otp.None? { return Malformed; }
      var secret := store.Get(OtpKey(username), now);
      if secret.None? { return Expired; }
      if code(secret.value, now / period) != otp.value { return Invalid; }
      store.Del(OtpKey(username));
      return Accepted;
    }
  }

  datatype Event =
    | Issue(username: string, secret: string, now: int, at: int, userExists: bool)
    | Submit(username: string, otp: Option<string>, now: int)

  /** The store after a serial run. */
  function After(events: seq<Event>, code: Coder, period: int): Kv
    requires period > 0
    decreases |events|
  {
    if events == [] then map[]
    else
      var before := After(events[..|events| - 1], code, period);
      match events[|events| - 1]
      case Issue(username, secret, _, at, userExists) =>
        if userExists then Put(before, OtpKey(username), secret, at, period) else before
      case Submit(username, otp, now) =>
        if Check(before, code, username, otp, now, period).Accepted? then Remove(before, OtpKey(username)) else before
  }

  /** The i-th event stored a secret for the user. */
  predicate Issues(events: seq<Event>, i: nat, username: string)
    requires i < |events|
  {
    events[i].Issue? && events[i].userExists && events[i].username == username
  }

  /** The i-th event was a code of the user that passed. */
  predicate Passes(events: seq<Event>, i: nat, code: Coder, period: int, username: string)
    requires i < |events| && period > 0
  {
    && events[i].Submit? && events[i].username == username
    && Check(After(events[..i], code, period), code, username, events[i].otp, events[i].now, period).Accepted?
  }

  function IssueCount(events: seq<Event>, username: string): nat
    decreases |events|
  {
    if events == [] then 0
    else IssueCount(events[..|events| - 1], username) + if Issues(events, |events| - 1, username) then 1 else 0
  }

  function PassCount(events: seq<Event>, code: Coder, period: int, username: string): nat
    requires period > 0
    decreases |events|
  {
    if events == [] then 0
    else
      PassCount(events[..|events| - 1], code, period, username)
      + if Passes(events, |events| - 1, code, period, username) then 1 else 0
  }

  lemma KeyOfUser(u: string, v: string)
    requires OtpKey(u) == OtpKey(v)
    ensures u == v
  {
    assert u == OtpKey(u)[4..] == OtpKey(v)[4..] == v;
  }

  lemma {:induction false} StoredAccount(events: seq<Event>, code: Coder, period: int, username: string)
    requires period > 0
    ensures PassCount(events, code, period, username) + (if OtpKey(username) in After(events, code, period) then 1 else 0)
            <= IssueCount(events, username)
    decreases |events|
  {
    if events != [] {
      var rest, e := events[..|events| - 1], events[|events| - 1];
      StoredAccount(rest, code, period, username);
      if OtpKey(e.username) == OtpKey(username) { KeyOfUser(e.username, username); }
    }
  }

  /**
   Main account. For every run, user and time: the codes that passed plus the live secret,
   if there is one, never exceed the secrets that were stored for the user.
   */
  lemma OtpAccounting(events: seq<Event>, code: Coder, period: int, username: string, now: int)
    requires period > 0
    ensures PassCount(events, code, period, username)
            + (if Live(After(events, code, period), OtpKey(username), now).Some? then 1 else 0)
            <= IssueCount(events, username)
  {
    StoredAccount(events, code, period, username);
  }

  /** Nothing was stored for the user, and nothing of the user passed, from event `i` on. */
  ghost predicate QuietSince(events: seq<Event>, i: nat, code: Coder, period: int, username: string)
    requires period > 0
  {
    forall j :: i <= j < |events| ==> !Issues(events, j, username) && !Passes(events, j, code, period, username)
  }

  /** A stored secret is the last one issued to its user, and has not been used. */
  lemma {:induction false} StoredIsLatest(events: seq<Event>, code: Coder, period: int, username: string) returns (i: nat)
    requires period > 0 && OtpKey(username) in After(events, code, period)
    ensures i < |events| && Issues(events, i, username)
    ensures After(events, code, period)[OtpKey(username)] == Slot(events[i].secret, events[i].at + period)
    ensures QuietSince(events, i + 1, code, period, username)
    decreases |events|
  {
    var n := |events| - 1;
    var rest, e := events[..n], events[n];
    if Issues(events, n, username) {
      i := n;
    } else {
      if OtpKey(e.username) == OtpKey(username) { KeyOfUser(e.username, username); }
      i := StoredIsLatest(rest, code, period, username);
      forall j | i + 1 <= j < |events|
        ensures !Issues(events, j, username) && !Passes(events, j, code, period, username)
      {
        if j < n {
          assert !Issues(rest, j, username) && !Passes(rest, j, code, period, username);
          assert rest[..j] == events[..j];
        }
      }
    }
  }

  /**
   Every accepted code answers one issue of its user: the code of that issue's secret in
   the present time step, within the time to live, with no other use of it in between.
   */
  lemma PassAnswersIssue(events: seq<Event>, j: nat, code: Coder, period: int, username: string) returns (i: nat)
    requires period > 0 && j < |events| && Passes(events, j, code, period, username)
    ensures i < j && Issues(events, i, username)
    ensures events[j].otp == Some(code(events[i].secret, TimeStep(events[j].now, period)))
    ensures events[j].now < events[i].at + period
    ensures forall m :: i < m < j ==> !Issues(events, m, username) && !Passes(events, m, code, period, username)
  {
    i := StoredIsLatest(events[..j], code, period, username);
    forall m | i < m < j
      ensures !Issues(events, m, username) && !Passes(events, m, code, period, username)
    {
      assert !Issues(events[..j], m, username) && !Passes(events[..j], m, code, period, username);
      assert events[..j][..m] == events[..m];
    }
  }

  /** So no issue answers for two accepted codes. */
  lemma OnePassPerIssue(events: seq<Event>, j: nat, j': nat, code: Coder, period: int, username: string) returns (i: nat, i': nat)
    requires period > 0 && j < j' < |events|
    requires Passes(events, j, code, period, username) && Passes(events, j', code, period, username)
    ensures i < j < i' < j' && Issues(events, i, username) && Issues(events, i', username)
  {
    i := PassAnswersIssue(events, j, code, period, username);
    i' := PassAnswersIssue(events, j', code, period, username);
  }

  /** A secret stays stored until its user gets another one or uses it. */
  lemma {:induction false} StoredSince(events: seq<Event>, i: nat, code: Coder, period: int, username: string)
    requires period > 0 && i < |events| && Issues(events, i, username)
    requires QuietSince(events, i + 1, code, period, username)
    ensures OtpKey(username) in After(events, code, period)
    ensures After(events, code, period)[OtpKey(username)] == Slot(events[i].secret, events[i].at + period)
    decreases |events|
  {
    var n := |events| - 1;
    var rest, e := events[..n], events[n];
    if i < n {
      forall j | i + 1 <= j < n
        ensures !Issues(rest, j, username) && !Passes(rest, j, code, period, username)
      {
        assert !Issues(events, j, username) && !Passes(events, j, code, period, username);
        assert rest[..j] == events[..j];
      }
      StoredSince(rest, i, code, period, username);
      assert !Issues(events, n, username) && !Passes(events, n, code, period, username);
      if OtpKey(e.username) == OtpKey(username) { KeyOfUser(e.username, username); }
    }
  }

  lemma SameStepSoon(t0: int, t: int, period: int)
    requires period > 0 && TimeStep(t, period) == TimeStep(t0, period)
    ensures t < t0 + period
  {
    assert t == period * (t / period) + t % period;
    assert t0 == period * (t0 / period) + t0 % period;
  }

  /** The code that was mailed for the i-th event. */
  function Mailed(e: Event, code: Coder, period: int): string
    requires period > 0 && e.Issue?
  {
    code(e.secret, TimeStep(e.now, period))
  }

  /**
   Lifetime. In any run, the code of an issue that was neither replaced nor used since is
   accepted throughout the time step in which it was computed: the time to live never cuts
   that short. At a later time it is accepted only if the secret has the same code there,
   and then no longer than the time to live.
   */
  lemma OtpLifetime(events: seq<Event>, i: nat, code: Coder, username: string, t: int, period: int)
    requires period > 0 && i < |events| && Issues(events, i, username)
    requires QuietSince(events, i + 1, code, period, username)
    requires events[i].now <= events[i].at <= t
    ensures var e := events[i];
            var accepted := Check(After(events, code, period), code, username, Some(Mailed(e, code, period)), t, period).Accepted?;
            var same := TimeStep(t, period) == TimeStep(e.now, period);
            && (same ==> accepted && Live(After(events, code, period), OtpKey(username), t) == Some(e.secret))
            && (accepted <==> t < e.at + period && code(e.secret, TimeStep(t, period)) == Mailed(e, code, period))
            && ((code(e.secret, TimeStep(t, period)) == Mailed(e, code, period) ==> same) ==> (accepted <==> same))
  {
    StoredSince(events, i, code, period, username);
    if TimeStep(t, period) == TimeStep(events[i].now, period) {
      SameStepSoon(events[i].now, t, period);
    }
  }

  lemma StepEnds(t0: int, t: int, period: int)
    requires period > 0 && t0 <= t
    ensures TimeStep(t, period) == TimeStep(t0, period) <==> t < t0 + (period - t0 % period)
  {
    var q := t0 / period;
    assert t0 == period * q + t0 % period;
    assert t == period * (t / period) + t % period;
    if t < t0 + (period - t0 % period) {
      QuotientIs(t, period, q);
    }
  }

  lemma ProductOrder(p: nat, x: int, y: int)
    requires x <= y
    ensures p * x <= p * y
  {
  }

  lemma QuotientIs(t: int, period: int, q: int)
    requires period > 0 && period * q <= t < period * q + period
    ensures t / period == q
  {
    var r := t / period;
    assert t == period * r + t % period;
    if r > q { ProductOrder(period, q + 1, r); }
    if r < q { ProductOrder(period, r + 1, q); }
  }

  /** The i-th event stored the user's last secret, and it has not been used. */
  ghost predicate Unused(events: seq<Event>, i: nat, code: Coder, period: int, username: string)
    requires period > 0
  {
    i < |events| && Issues(events, i, username) && QuietSince(events, i + 1, code, period, username)
  }

  /**
   Every outcome. With an unused secret, a code is refused as expired exactly when the time
   to live is over, and otherwise accepted exactly when it is the secret's code of the
   present time step.
   */
  lemma OutcomeIff(events: seq<Event>, i: nat, code: Coder, username: string, otp: Option<string>, t: int, period: int)
    requires period > 0 && Unused(events, i, code, period, username)
    ensures var outcome := Check(After(events, code, period), code, username, otp, t, period);
            var e := events[i];
            && (outcome == Malformed <==> otp == None)
            && (outcome == Expired <==> otp.Some? && e.at + period <= t)
            && (outcome == Accepted <==> otp == Some(code(e.secret, TimeStep(t, period))) && t < e.at + period)
            && (outcome == Invalid <==> otp.Some? && t < e.at + period && otp.value != code(e.secret, TimeStep(t, period)))
            && (After(events, code, period)["otp:" + username := Slot(e.secret, e.at + period)] == After(events, code, period))
  {
    StoredSince(events, i, code, period, username);
    hide After, TimeStep;
  }

  /** Without one, because none was ever stored or the last one was used, every code has expired. */
  lemma OutcomeWithout(events: seq<Event>, code: Coder, username: string, otp: Option<string>, t: int, period: int)
    requires period > 0 && forall i: nat :: !Unused(events, i, code, period, username)
    ensures Check(After(events, code, period), code, username, otp, t, period) == if otp == None then Malformed else Expired
    ensures "otp:" + username !in After(events, code, period)
  {
    if OtpKey(username) in After(events, code, period) {
      var i := StoredIsLatest(events, code, period, username);
      assert Unused(events, i, code, period, username);
    }
  }

  /** Section 4.2 of RFC 6238: the time steps are numbered by whole periods since the epoch. */
  lemma TimeStepIff(t: int, period: int, q: int)
    requires period > 0
    ensures TimeStep(t, period) == q <==> period * q <= t < period * q + period
  {
    assert t == period * (t / period) + t % period;
    if period * q <= t < period * q + period { QuotientIs(t, period, q); }
  }

  /** Until one period after its computation, a code is good up to the boundary, or in the next step too. */
  lemma AcceptedUntil(events: seq<Event>, i: nat, code: Coder, username: string, t: int, period: int)
    requires period > 0 && i < |events| && Issues(events, i, username)
    requires QuietSince(events, i + 1, code, period, username)
    requires events[i].now <= events[i].at <= t < events[i].now + period
    ensures var e := events[i];
            Check(After(events, code, period), code, username, Some(Mailed(e, code, period)), t, period).Accepted?
            <==> || t < e.now + (period - e.now % period)
                 || code(e.secret, TimeStep(e.now, period) + 1) == Mailed(e, code, period)
  {
    hide After, Check, QuietSince;
    OtpLifetime(events, i, code, username, t, period);
    StepEnds(events[i].now, t, period);
    StepNext(events[i].now, t, period);
  }

  /** The mailed code is accepted from when it is stored until `period` seconds after its computation. */
  ghost predicate GoodAsMailed(events: seq<Event>, i: nat, code: Coder, username: string, period: int)
    requires period > 0 && i < |events| && events[i].Issue?
  {
    forall t :: events[i].at <= t < events[i].now + period ==>
      Check(After(events, code, period), code, username, Some(Mailed(events[i], code, period)), t, period).Accepted?
  }

  /**
   The mail says that the code expires in `period` seconds. This is so if and only if it
   was computed on a time-step boundary, or is stored too late to be used at all, or the
   secret happens to have the same code in the next time step.
   */
  lemma MailedLifetimeIff(events: seq<Event>, i: nat, code: Coder, username: string, period: int)
    requires period > 0 && i < |events| && Issues(events, i, username)
    requires QuietSince(events, i + 1, code, period, username)
    requires events[i].now <= events[i].at
    ensures var e := events[i];
            GoodAsMailed(events, i, code, username, period)
            <==> || e.now % period == 0
                 || e.at >= e.now + period
                 || code(e.secret, TimeStep(e.now, period) + 1) == Mailed(e, code, period)
  {
    hide After, Check, QuietSince, Mailed;
    var e := events[i];
    var boundary := e.now + (period - e.now % period);
    var last := e.now + period - 1;
    if e.at <= last { AcceptedUntil(events, i, code, username, last, period); }
    assert last < boundary <==> e.now % period == 0;
    if e.at > last || last < boundary || code(e.secret, TimeStep(e.now, period) + 1) == Mailed(e, code, period) {
      forall t | e.at <= t < e.now + period
        ensures Check(After(events, code, period), code, username, Some(Mailed(e, code, period)), t, period).Accepted?
      {
        AcceptedUntil(events, i, code, username, t, period);
      }
    }
  }

  /** Within one period from a time there is at most one later time step, the next. */
  lemma StepNext(t0: int, t: int, period: int)
    requires period > 0 && t0 <= t < t0 + period
    ensures TimeStep(t, period) == TimeStep(t0, period) || TimeStep(t, period) == TimeStep(t0, period) + 1
  {
    var q := t0 / period;
    assert t0 == period * q + t0 % period;
    if t < period * q + period {
      QuotientIs(t, period, q);
    } else {
      assert period * (q + 1) == period * q + period;
      QuotientIs(t, period, q + 1);
    }
  }
}
