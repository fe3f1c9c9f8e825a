/** What the relay promises, over every run: any configurations, any number of
    sessions and reloads, in any order.
 */
module Guarantees {
  import opened Text
  import opened Policy
  import opened Accounts
  import opened Inbound
  import opened Server
  import Access
  import Message
  import Milter
  import Quota
  import Render

  ghost function RunOf(env: Env, cfg: Config, events: seq<Event>): State {
    RunFrom(env, Start(env, cfg), events)
  }

  /** The history of a run is the snapshots its steps found in service. */
  lemma {:induction false} HistoryIsService(env: Env, cfg: Config, events: seq<Event>, t: nat)
    requires t < |events|
    ensures |RunOf(env, cfg, events).history| == |events|
    ensures RunOf(env, cfg, events).history[t] == RunOf(env, cfg, events[..t]).current
  {
    hide React, Start, Writes, Stub, Deliveries;
    var n := |events| - 1;
    HistoryLength(env, cfg, events);
    HistoryLength(env, cfg, events[..n]);
    if t < n {
      assert events[..n][..t] == events[..t];
      HistoryIsService(env, cfg, events[..n], t);
    }
  }

  lemma {:induction false} HistoryLength(env: Env, cfg: Config, events: seq<Event>)
    ensures |RunOf(env, cfg, events).history| == |events|
  {
    hide React, Writes, Stub, Deliveries;
    if events != [] {
      HistoryLength(env, cfg, events[..|events| - 1]);
    }
  }

  // ---------- Logging in ----------

  /** The password of `u` is being checked on connection `c`, against the
      snapshot `snap`. */
  ghost predicate Checking(s: State, c: nat, u: string, password: string, snap: Snapshot) {
    c in s.sessions && s.sessions[c].phase == Verifying(u, password) && s.sessions[c].snap == snap
  }

  /** From the step it was sent until step `until`, `password` and no other was
      being checked on the connection, against the snapshot in service when the
      connection was made. An AUTH in between is one the library refuses. */
  ghost predicate Pending(env: Env, cfg: Config, events: seq<Event>, c: nat, u: string, password: string, born: nat,
                          begun: nat, until: nat)
  {
    && born < begun < until <= |events|
    && events[born] == Connect(c) && events[begun] == AuthBegin(c, u, password)
    && forall t :: begun < t <= until ==>
         Checking(RunOf(env, cfg, events[..t]), c, u, password, RunOf(env, cfg, events[..born]).current)
  }

  /** Connection `c` sent the password of `u` at one step, its check ended at a
      later one with no other end in between, and it verifies against the hash
      `u` had, enabled, in the snapshot the connection was made under. */
  ghost predicate LoggedIn(env: Env, cfg: Config, events: seq<Event>, c: nat, u: string, l: Login) {
    && Pending(env, cfg, events, c, u, l.password, l.born, l.begun, l.ended)
    && l.ended < |events| && events[l.ended] == AuthEnd(c)
    && (forall t :: l.begun < t < l.ended ==> events[t] != AuthEnd(c))
    && (var snap := RunOf(env, cfg, events[..l.born]).current;
        u in snap.accounts && !snap.accounts[u].disabled && env.verify(snap.accounts[u].passwordHash, l.password))
  }

  // What one step does to the login of a session.
  datatype LoginMove = Born | Asked | Accepted | Still

  ghost function MoveOf(env: Env, s: State, e: Event, c: nat): LoginMove {
    if c !in s.sessions then Born
    else if e.OfSession() && e.conn == c && e.AuthBegin? && Enters(env, s, e) && MayVerify(s.sessions[c]) then Asked
    else if e.OfSession() && e.conn == c && e.AuthEnd? && s.sessions[c].phase.Verifying?
            && EndAuth(env, s.sessions[c], |s.history|).account.Some? then Accepted
    else Still
  }

  ghost predicate Moved(env: Env, s: State, e: Event, c: nat, t: Session) {
    match MoveOf(env, s, e, c)
    case Born => e == Connect(c) && t == NewSession(s.current, |s.history|)
    case Asked =>
      var b := s.sessions[c];
      && t.phase == Verifying(e.username, e.password) && t.login == b.login.(begun := |s.history|)
      && t.account.None? && b.account.None? && t.snap == b.snap && !b.phase.Verifying?
      && t.verifications == b.verifications + 1
    case Accepted =>
      var b := s.sessions[c];
      && t.phase.Ready? && t.account.Some? && t.account.value.username == b.phase.username
      && t.login == b.login.(ended := |s.history|, password := b.phase.password)
      && b.account.None? && t.verifications == b.verifications
    case Still =>
      var b := s.sessions[c];
      && t.login == b.login && t.verifications == b.verifications
      && (t.phase.Verifying? ==> t.phase == b.phase && t.snap == b.snap && e != AuthEnd(c))
      && (b.phase.Verifying? && !t.phase.Verifying? ==> t.account.None?)
      && (t.account.Some? ==> b.account.Some? && t.account.value.username == b.account.value.username)
  }

  lemma OtherSessionStays(env: Env, s: State, e: Event, c: nat)
    requires c in Next(env, s, e).sessions && (!e.OfSession() || e.conn != c || !Enters(env, s, e))
    ensures c in s.sessions && Next(env, s, e).sessions[c] == s.sessions[c]
  {
    hide After, Writes, Stub, Deliveries, BuildSnapshot, Dial, ClientOf;
  }

  lemma OutsideMoves(env: Env, s: State, e: Event, c: nat)
    requires c in s.sessions && (!e.OfSession() || e.conn != c || !Enters(env, s, e))
    ensures Moved(env, s, e, c, s.sessions[c])
  {
    hide Verifiers, Slots, MayVerify, EndAuth;
  }

  lemma EnteringMoves(env: Env, s: State, e: Event)
    requires Inv(env, s) && e.OfSession() && !e.Connect? && Enters(env, s, e)
    ensures Moved(env, s, e, e.conn, After(env, s, e))
  {
    hide RelayedOk, ClientsOk, Moved, Enters, After, SessionOk, Verifiers, WellBuilt;
    EntersSession(env, s, e);
    var t := s.sessions[e.conn];
    assert SessionOk(env, s.history, s.logs, t);
    SnapInHistory(env, s.history, s.logs, t);
    AfterMoves(env, s, e);
  }

  lemma EntersSession(env: Env, s: State, e: Event)
    requires e.OfSession() && !e.Connect? && Enters(env, s, e)
    ensures e.conn in s.sessions
  {
  }

  lemma SnapInHistory(env: Env, h: seq<Snapshot>, logs: Logs, s: Session)
    requires SessionOk(env, h, logs, s)
    ensures s.snap in h
  {
  }

  lemma ConnectMoves(env: Env, s: State, c: nat)
    requires c !in s.sessions
    ensures Moved(env, s, Connect(c), c, NewSession(s.current, |s.history|))
  {
  }

  lemma LoginStep(env: Env, s: State, e: Event, c: nat)
    requires Inv(env, s) && c in Next(env, s, e).sessions
    ensures Moved(env, s, e, c, Next(env, s, e).sessions[c])
  {
    hide Inv, Next, Moved, After, Enters;
    if !e.OfSession() || e.conn != c || !Enters(env, s, e) {
      OtherSessionStays(env, s, e, c);
      OutsideMoves(env, s, e, c);
    } else {
      EnteredSession(env, s, e);
      if e.Connect? {
        ConnectEnters(env, s, c);
        ConnectMoves(env, s, c);
      } else {
        EnteringMoves(env, s, e);
      }
    }
  }

  lemma ConnectEnters(env: Env, s: State, c: nat)
    ensures Enters(env, s, Connect(c)) ==> c !in s.sessions
    ensures After(env, s, Connect(c)) == NewSession(s.current, |s.history|)
  {
  }

  lemma EnteredSession(env: Env, s: State, e: Event)
    requires e.OfSession() && Enters(env, s, e)
    ensures var n := Next(env, s, e);
            n.sessions == s.sessions[e.conn := After(env, s, e)] && n.current == s.current && n.closed == s.closed
  {
    hide After, Writes, Stub, Deliveries;
  }

  // A step that is no part of logging in.
  predicate Unmoved(b: Session, t: Session) {
    && t.login == b.login && t.verifications == b.verifications
    && (t.phase.Verifying? ==> t.phase == b.phase && t.snap == b.snap)
    && (b.phase.Verifying? ==> t == b)
    && (t.account.Some? ==> b.account.Some? && t.account.value.username == b.account.value.username)
  }

  lemma EnvelopeUnmoved(s: Session, current: Snapshot, now: nat, from: string, to: string)
    requires WellBuilt(current)
    ensures Unmoved(s, DoMail(s, current, now, from)) && Unmoved(s, DoRcpt(s, to)) && Unmoved(s, DoReset(s))
    ensures Unmoved(s, BeginData(s, current, now))
  {
    hide PolicyFor, PolicyOf, Allows, CountedDims;
  }

  lemma DataUnmoved(s: Session, closed: multiset<nat>, log: seq<Quota.Command>, clock: nat, at: nat, fate: Quota.Fate,
                    a: Arrival)
    ensures Unmoved(s, DoIncr(s, closed, log, clock, at, fate)) && Unmoved(s, DoExpire(s))
    ensures Unmoved(s, DoBody(s, a)) && Unmoved(s, DoDrop(s)) && Unmoved(s, DoSend(s))
  {
    hide FromOk, PolicyFor, Written, Quota.Run, Quota.Answer, Charge;
  }

  lemma AfterUnmoved(env: Env, s: State, e: Event)
    requires e.OfSession() && !e.Connect? && !e.AuthBegin? && !e.AuthEnd? && e.conn in s.sessions
             && WellBuilt(s.current)
    ensures Unmoved(s.sessions[e.conn], After(env, s, e))
  {
    hide Unmoved, DoMail, DoRcpt, DoReset, BeginData, DoIncr, DoExpire, DoBody, DoDrop, DoSend, WellBuilt;
    var t := s.sessions[e.conn];
    match e
    case Mail(_, from) => EnvelopeUnmoved(t, s.current, |s.history|, from, []);
    case Rcpt(_, to) => EnvelopeUnmoved(t, s.current, |s.history|, [], to);
    case Rset(_) => EnvelopeUnmoved(t, s.current, |s.history|, [], []);
    case DataBegin(_) => EnvelopeUnmoved(t, s.current, |s.history|, [], []);
    case DataIncr(_, clock, at, fate) => DataUnmoved(t, s.closed, LogFor(env, s.logs, t), clock, at, fate, NOTHING);
    case DataExpire(_, at) => DataUnmoved(t, s.closed, [], 0, at, Quota.Answered, NOTHING);
    case DataBody(_, a) => DataUnmoved(t, s.closed, [], 0, 0, Quota.Answered, a);
    case DataDrop(_) => DataUnmoved(t, s.closed, [], 0, 0, Quota.Answered, NOTHING);
    case DataSend(_, _, _) => DataUnmoved(t, s.closed, [], 0, 0, Quota.Answered, NOTHING);
  }

  lemma AfterMoves(env: Env, s: State, e: Event)
    requires e.OfSession() && !e.Connect? && Enters(env, s, e) && WellBuilt(s.current)
    requires SessionOk(env, s.history, s.logs, s.sessions[e.conn]) && WellBuilt(s.sessions[e.conn].snap)
    ensures Moved(env, s, e, e.conn, After(env, s, e))
  {
    hide SessionOk, PolicyOf, Verifiers, Slots, DoMail, DoRcpt, DoReset, BeginData, DoIncr, DoExpire, DoBody, DoDrop,
         DoSend;
    if s.sessions[e.conn].phase.Verifying? {
      VerifyingHasNoAccount(env, s.history, s.logs, s.sessions[e.conn]);
    }
    if !e.AuthBegin? && !e.AuthEnd? {
      AfterUnmoved(env, s, e);
      hide After;
    }
  }

  lemma VerifyingHasNoAccount(env: Env, h: seq<Snapshot>, logs: Logs, s: Session)
    requires SessionOk(env, h, logs, s) && s.phase.Verifying?
    ensures s.account.None?
  {
  }

  lemma PendingGrows(env: Env, cfg: Config, events: seq<Event>, e: Event, c: nat, u: string, p: string, born: nat,
                     begun: nat, until: nat)
    requires Pending(env, cfg, events, c, u, p, born, begun, until)
    ensures Pending(env, cfg, events + [e], c, u, p, born, begun, until)
  {
    hide RunOf;
    forall t | begun < t <= until
      ensures Checking(RunOf(env, cfg, (events + [e])[..t]), c, u, p, RunOf(env, cfg, (events + [e])[..born]).current)
    {
      assert (events + [e])[..t] == events[..t] && (events + [e])[..born] == events[..born];
    }
  }

  lemma LoggedInGrows(env: Env, cfg: Config, events: seq<Event>, e: Event, c: nat, u: string, l: Login)
    requires LoggedIn(env, cfg, events, c, u, l)
    ensures LoggedIn(env, cfg, events + [e], c, u, l)
  {
    hide RunOf, Pending, Enabled;
    PendingBounds(env, cfg, events, c, u, l.password, l.born, l.begun, l.ended);
    PendingGrows(env, cfg, events, e, c, u, l.password, l.born, l.begun, l.ended);
    assert (events + [e])[..l.born] == events[..l.born];
  }

  lemma PendingBounds(env: Env, cfg: Config, events: seq<Event>, c: nat, u: string, p: string, born: nat, begun: nat,
                      until: nat)
    requires Pending(env, cfg, events, c, u, p, born, begun, until)
    ensures born < begun < until <= |events|
  {
    hide RunOf;
  }

  // An end in between would have ended the check.
  lemma NoEndBetween(env: Env, cfg: Config, events: seq<Event>, c: nat, u: string, p: string, born: nat, begun: nat,
                     until: nat, t: nat)
    requires Pending(env, cfg, events, c, u, p, born, begun, until) && begun < t < until
    ensures events[t] != AuthEnd(c)
  {
    RunKeeps(env, cfg, events[..t]);
    hide RunFrom, Inv, Start;
    var s, n := RunOf(env, cfg, events[..t]), RunOf(env, cfg, events[..t + 1]);
    var snap := RunOf(env, cfg, events[..born]).current;
    assert Checking(s, c, u, p, snap) && Checking(n, c, u, p, snap);
    RunNext(env, cfg, events, t);
    if events[t] == AuthEnd(c) {
      EnteredSession(env, s, AuthEnd(c));
      EndAuthFreesSlot(env, s.sessions[c], |s.history|);
    }
  }

  lemma EndAuthFreesSlot(env: Env, s: Session, now: nat)
    ensures !EndAuth(env, s, now).phase.Verifying?
  {
  }

  lemma RunNext(env: Env, cfg: Config, events: seq<Event>, n: nat)
    requires n < |events|
    ensures RunOf(env, cfg, events[..n + 1]) == Next(env, RunOf(env, cfg, events[..n]), events[n])
  {
    hide Next;
    assert events[..n + 1][..n] == events[..n];
  }

  // What the events so far say of a session's login.
  ghost predicate Story(env: Env, cfg: Config, events: seq<Event>, c: nat, s: Session) {
    && s.login.born < |events| && events[s.login.born] == Connect(c)
    && (s.phase.Verifying? ==>
          Pending(env, cfg, events, c, s.phase.username, s.phase.password, s.login.born, s.login.begun, |events|))
    && (s.account.Some? ==> LoggedIn(env, cfg, events, c, s.account.value.username, s.login))
  }

  lemma SnapOfUnauthenticated(env: Env, cfg: Config, events: seq<Event>, c: nat)
    requires c in RunOf(env, cfg, events).sessions && RunOf(env, cfg, events).sessions[c].account.None?
    ensures var t := RunOf(env, cfg, events).sessions[c];
            t.login.born < |events| && t.snap == RunOf(env, cfg, events[..t.login.born]).current
  {
    RunKeeps(env, cfg, events);
    hide RunFrom, RelayedOk, ClientsOk, WellBuilt, PhaseOk, MailedOk, Start;
    HistoryLength(env, cfg, events);
    var s := RunOf(env, cfg, events);
    assert SessionOk(env, s.history, s.logs, s.sessions[c]);
    HistoryIsService(env, cfg, events, s.sessions[c].login.born);
  }

  // A check goes on for one more step.
  lemma PendingNext(env: Env, cfg: Config, events: seq<Event>, e: Event, c: nat, u: string, p: string, born: nat,
                    begun: nat)
    requires Pending(env, cfg, events, c, u, p, born, begun, |events|)
    requires Checking(RunOf(env, cfg, events + [e]), c, u, p, RunOf(env, cfg, events[..born]).current)
    ensures Pending(env, cfg, events + [e], c, u, p, born, begun, |events| + 1)
  {
    hide RunOf;
    PendingGrows(env, cfg, events, e, c, u, p, born, begun, |events|);
    assert (events + [e])[..|events| + 1] == events + [e];
    assert (events + [e])[..born] == events[..born];
  }

  // A check begins.
  lemma PendingFirst(env: Env, cfg: Config, events: seq<Event>, c: nat, u: string, p: string, born: nat)
    requires born < |events| && events[born] == Connect(c)
    requires Checking(RunOf(env, cfg, events + [AuthBegin(c, u, p)]), c, u, p, RunOf(env, cfg, events[..born]).current)
    ensures Pending(env, cfg, events + [AuthBegin(c, u, p)], c, u, p, born, |events|, |events| + 1)
  {
    hide RunOf;
    var all := events + [AuthBegin(c, u, p)];
    assert all[..|events| + 1] == all && all[..born] == events[..born];
  }

  // A check is accepted.
  lemma PendingAccepted(env: Env, cfg: Config, events: seq<Event>, c: nat, u: string, l: Login)
    requires Pending(env, cfg, events, c, u, l.password, l.born, l.begun, |events|) && l.ended == |events|
    requires var snap := RunOf(env, cfg, events[..l.born]).current;
             Enabled(snap, u) && env.verify(snap.accounts[u].passwordHash, l.password)
    ensures LoggedIn(env, cfg, events + [AuthEnd(c)], c, u, l)
  {
    hide RunOf, Pending;
    var all := events + [AuthEnd(c)];
    PendingBounds(env, cfg, events, c, u, l.password, l.born, l.begun, |events|);
    PendingGrows(env, cfg, events, AuthEnd(c), c, u, l.password, l.born, l.begun, |events|);
    forall t | l.begun < t < l.ended ensures all[t] != AuthEnd(c) {
      NoEndBetween(env, cfg, all, c, u, l.password, l.born, l.begun, l.ended, t);
    }
    assert all[..l.born] == events[..l.born];
  }

  lemma AcceptedVerifies(env: Env, s: Session, now: nat)
    requires s.phase.Verifying? && EndAuth(env, s, now).account.Some? && s.account.None?
    ensures Enabled(s.snap, s.phase.username)
            && env.verify(s.snap.accounts[s.phase.username].passwordHash, s.phase.password)
  {
  }

  lemma StoryNext(env: Env, cfg: Config, events: seq<Event>, e: Event, c: nat)
    requires c in RunOf(env, cfg, events).sessions && Story(env, cfg, events, c, RunOf(env, cfg, events).sessions[c])
    requires Moved(env, RunOf(env, cfg, events), e, c, RunOf(env, cfg, events + [e]).sessions[c])
    requires c in RunOf(env, cfg, events + [e]).sessions && |RunOf(env, cfg, events).history| == |events|
    ensures Story(env, cfg, events + [e], c, RunOf(env, cfg, events + [e]).sessions[c])
  {
    hide RunOf, Pending, LoggedIn, EndAuth, Enters, Enabled;
    var s := RunOf(env, cfg, events);
    var b, t := s.sessions[c], RunOf(env, cfg, events + [e]).sessions[c];
    match MoveOf(env, s, e, c)
    case Born => assert false;
    case Asked =>
      SnapOfUnauthenticated(env, cfg, events, c);
      PendingFirst(env, cfg, events, c, e.username, e.password, b.login.born);
    case Accepted =>
      SnapOfUnauthenticated(env, cfg, events, c);
      AcceptedVerifies(env, b, |events|);
      PendingAccepted(env, cfg, events, c, b.phase.username, t.login);
    case Still =>
      if t.phase.Verifying? {
        PendingSnap(env, cfg, events, c, b.phase.username, b.phase.password, b.login.born, b.login.begun);
        PendingNext(env, cfg, events, e, c, t.phase.username, t.phase.password, t.login.born, t.login.begun);
      }
      if t.account.Some? {
        LoggedInGrows(env, cfg, events, e, c, t.account.value.username, t.login);
      }
  }

  lemma PendingSnap(env: Env, cfg: Config, events: seq<Event>, c: nat, u: string, p: string, born: nat, begun: nat)
    requires Pending(env, cfg, events, c, u, p, born, begun, |events|)
    ensures born < |events| && Checking(RunOf(env, cfg, events), c, u, p, RunOf(env, cfg, events[..born]).current)
  {
    hide RunOf;
    assert events[..|events|] == events;
  }

  lemma {:induction false} EverySession(env: Env, cfg: Config, events: seq<Event>, c: nat)
    requires c in RunOf(env, cfg, events).sessions
    ensures Story(env, cfg, events, c, RunOf(env, cfg, events).sessions[c])
  {
    hide Story, Next, Inv, Start, Moved;
    if events == [] {
      NoSessionsYet(env, cfg);
    } else {
      var n := |events| - 1;
      var before, e := events[..n], events[n];
      assert events == before + [e];
      RunKeeps(env, cfg, before);
      HistoryLength(env, cfg, before);
      LoginStep(env, RunOf(env, cfg, before), e, c);
      if c in RunOf(env, cfg, before).sessions {
        EverySession(env, cfg, before, c);
        StoryNext(env, cfg, before, e, c);
      } else {
        StoryBegins(env, cfg, before, e, c);
      }
    }
  }

  lemma NoSessionsYet(env: Env, cfg: Config)
    ensures Start(env, cfg).sessions == map[] && Start(env, cfg).relayed == []
  {
    hide BuildSnapshot, Dial, ClientOf;
  }

  lemma StoryBegins(env: Env, cfg: Config, events: seq<Event>, e: Event, c: nat)
    requires c !in RunOf(env, cfg, events).sessions && |RunOf(env, cfg, events).history| == |events|
    requires c in RunOf(env, cfg, events + [e]).sessions
    requires Moved(env, RunOf(env, cfg, events), e, c, RunOf(env, cfg, events + [e]).sessions[c])
    ensures Story(env, cfg, events + [e], c, RunOf(env, cfg, events + [e]).sessions[c])
  {
    hide RunOf, Pending, LoggedIn;
  }

  lemma {:induction false} EveryLogin(env: Env, cfg: Config, events: seq<Event>, i: nat)
    requires i < |RunOf(env, cfg, events).relayed|
    ensures var d := RunOf(env, cfg, events).relayed[i]; LoggedIn(env, cfg, events, d.conn, d.account, d.login)
  {
    hide LoggedIn, Start, React, Writes, Stub;
    if events == [] {
      NoSessionsYet(env, cfg);
    } else {
      var n := |events| - 1;
      var before, e := events[..n], events[n];
      assert events == before + [e];
      var s := RunOf(env, cfg, before);
      var d := RunOf(env, cfg, events).relayed[i];
      if i < |s.relayed| {
        EveryLogin(env, cfg, before, i);
      } else {
        EverySession(env, cfg, before, e.conn);
      }
      LoggedInGrows(env, cfg, before, e, d.conn, d.account, d.login);
    }
  }

  // ---------- Every message ----------

  /** Where the configuration limits messages, one was counted for this account;
      where it limits recipients, as many as the message has. The store answered
      each within its limit. */
  ghost predicate WithinQuota(env: Env, logs: Logs, cfg: Config, d: Delivery) {
    cfg.rateLimit.Some? ==>
      var limits := cfg.rateLimit.value.limits;
      var log := LogOf(logs, env.server(cfg.rateLimit.value.store));
      && (limits.messages > 0 ==>
            && Messages in d.counts
            && Quota.CountedAt(log, d.counts[Messages], cfg.hostname, d.account, Messages, 1)
            && Quota.AnswerAt(log, d.counts[Messages]) <= limits.messages)
      && (limits.recipients > 0 ==>
            && Recipients in d.counts
            && Quota.CountedAt(log, d.counts[Recipients], cfg.hostname, d.account, Recipients, |d.to|)
            && Quota.AnswerAt(log, d.counts[Recipients]) <= limits.recipients)
  }

  lemma TalliedIsWithin(env: Env, logs: Logs, snap: Snapshot, d: Delivery)
    requires Tallied(env, logs, d.limiter, d.account, |d.to|, [], d.counts)
    requires WellBuilt(snap) && d.limiter == snap.limiter && d.to != []
    ensures WithinQuota(env, logs, snap.config, d)
  {
    hide CountedDims, Quota.AnswerAt, PolicyOf, UsernameOk;
    var all := CountedDims(d.limiter, |d.to|);
    assert all[..|all|] == all;
  }

  /** Every message handed to the upstream comes from a connection that logged in
      as its account. At its MAIL the account was served and its list allowed the
      sender. When its DATA began the account was served and not disabled; the
      From header was allowed by its list then, unless the account is exempt; it
      was counted within every quota the configuration declares; and it was
      signed for the domain the gate picks under that list, or not at all. */
  lemma EveryMessageIsAuthorized(env: Env, cfg: Config, events: seq<Event>, i: nat)
    requires i < |RunOf(env, cfg, events).relayed|
    ensures var s := RunOf(env, cfg, events);
            var d := s.relayed[i];
            && d.login.ended < d.mailedAt < d.begunAt < |events| && d.to != []
            && LoggedIn(env, cfg, events, d.conn, d.account, d.login)
            && (var mail := RunOf(env, cfg, events[..d.mailedAt]).current;
                d.account in mail.accounts && Allows(Compile(mail.accounts[d.account].allowedSenders), d.from))
            && (var data := RunOf(env, cfg, events[..d.begunAt]).current;
                d.account in data.accounts &&
                var account := data.accounts[d.account];
                && account in data.config.accounts && account.username == d.account && !account.disabled
                && (account.skipHeaderFromCheck || CheckFrom(d.body, Compile(account.allowedSenders)).None?)
                && WithinQuota(env, s.logs, data.config, d)
                && d.signedFor
                   == SignedFor(data.config.keys, Compile(account.allowedSenders), d.sent.from, d.sent.body))
  {
    RunKeeps(env, cfg, events);
    hide RunFrom, LoggedIn, Allows, CheckFrom, WithinQuota, SignedFor, Compile, SessionsOk, ClientsOk, WellBuilt,
         PolicyFor, Tallied, LoginOk, FilteredOk;
    HistoryLength(env, cfg, events);
    EveryLogin(env, cfg, events, i);
    var s := RunOf(env, cfg, events);
    var d := s.relayed[i];
    HistoryIsService(env, cfg, events, d.mailedAt);
    HistoryIsService(env, cfg, events, d.begunAt);
    var mail, data := s.history[d.mailedAt], s.history[d.begunAt];
    SenderIsServed(mail, d.account, d.from);
    ServedPolicy(data, d.account);
    TalliedIsWithin(env, s.logs, data, d);
  }

  lemma SenderIsServed(snap: Snapshot, u: string, from: string)
    requires WellBuilt(snap) && Allows(PolicyFor(snap, u).senders, from)
    ensures u in snap.accounts && Allows(Compile(snap.accounts[u].allowedSenders), from)
  {
    hide WellBuilt, PolicyFor, Allows, Compile;
    if u in snap.accounts {
      ServedPolicy(snap, u);
    } else {
      NothingIsGranted(snap, u, from);
    }
  }

  /** Every message handed to the upstream met the filters of the snapshot adopted
      at its DATA. With no filters it leaves as it was submitted. None of them
      declined or dropped it, and one that could not be reached is one the owner
      lets fail open. Where they fail closed the message left by way of all of
      them, each handed what the one before left. */
  lemma EveryMessageIsFiltered(env: Env, cfg: Config, events: seq<Event>, i: nat)
    requires i < |RunOf(env, cfg, events).relayed|
    ensures var d := RunOf(env, cfg, events).relayed[i];
            && d.begunAt < |events|
            && FilteredBy(RunOf(env, cfg, events[..d.begunAt]).current.config.filters, d)
  {
    RunKeeps(env, cfg, events);
    hide RunFrom, Enabled, Allows, CanSign, SessionsOk, ClientsOk, WellBuilt, PolicyFor, Tallied, LoginOk, FromOk,
         FilteredOk, FilteredBy;
    HistoryLength(env, cfg, events);
    var d := RunOf(env, cfg, events).relayed[i];
    HistoryIsService(env, cfg, events, d.begunAt);
    FilteredInFull(RunOf(env, cfg, events).history[d.begunAt], d);
  }

  ghost predicate FilteredBy(configs: seq<Milter.FilterConfig>, d: Delivery) {
    var mail := Milter.Mail(d.from, d.to, d.body);
    && (configs == [] ==> d.sent == mail)
    && (forall k :: 0 <= k < |configs| ==>
          d.behave(k).reply.Actions? || (d.behave(k).reply.Unreachable? && configs[k].failOpen))
    && ((forall k :: 0 <= k < |configs| ==> !configs[k].failOpen || Milter.Healthy(d.behave(k).faults)) ==>
          exists ms :: Milter.Passage(mail, Milter.Met(configs, d.behave), ms) && ms[|configs|] == d.sent)
  }

  lemma FilteredInFull(snap: Snapshot, d: Delivery)
    requires FilteredOk(snap, d)
    ensures FilteredBy(snap.config.filters, d)
  {
    hide Milter.Healthy, Milter.Passage, Milter.Chain;
    var filters := Milter.Met(snap.config.filters, d.behave);
    assert forall k :: 0 <= k < |filters| ==> filters[k] in filters;
    Milter.ChainIs(Milter.Mail(d.from, d.to, d.body), filters, d.sent);
    if filters == [] {
      Milter.ChainOfNone(Milter.Mail(d.from, d.to, d.body));
    }
  }

  /** Revocation: while no account of that name is served, or the one that is
      stays disabled, no DATA that begins is ever relayed for it. */
  lemma RevokedSendsNothing(env: Env, cfg: Config, events: seq<Event>, u: string, from: nat, until: nat, i: nat)
    requires from <= until <= |events|
    requires forall t :: from <= t < until ==>
               var snap := RunOf(env, cfg, events[..t]).current; u in snap.accounts ==> snap.accounts[u].disabled
    requires i < |RunOf(env, cfg, events).relayed| && RunOf(env, cfg, events).relayed[i].account == u
    ensures !(from <= RunOf(env, cfg, events).relayed[i].begunAt < until)
  {
    EveryMessageIsAuthorized(env, cfg, events, i);
    hide RunFrom, LoggedIn, Allows, CheckFrom, WithinQuota, SignedFor, Compile;
  }

  /** A session found revoked is closed and forgets its envelope, at its next MAIL
      or when its DATA would begin. */
  lemma RevokedIsClosed(env: Env, s: State, e: Event)
    requires (e.Mail? || e.DataBegin?) && e.conn in s.sessions
    requires var t := s.sessions[e.conn];
             && t.open && t.phase.Ready? && t.account.Some? && (e.DataBegin? ==> t.mailed && t.to != [])
             && (var u := t.account.value.username; u in s.current.accounts ==> s.current.accounts[u].disabled)
    ensures var t := Next(env, s, e).sessions[e.conn]; !t.open && t.phase.Ready? && !t.mailed && t.to == []
  {
    hide Next, Enters;
    assert Enters(env, s, e) by { AlwaysEnters(env, s, e); }
    EnteredSession(env, s, e);
  }

  lemma AlwaysEnters(env: Env, s: State, e: Event)
    requires e.OfSession() && !e.Connect? && !e.AuthBegin? && e.conn in s.sessions
    ensures Enters(env, s, e)
  {
  }

  lemma ClosedIsDone(env: Env, s: State, e: Event)
    requires e.OfSession() && !e.Connect? && e.conn in s.sessions
    requires !s.sessions[e.conn].open && s.sessions[e.conn].phase.Ready?
    ensures After(env, s, e) == s.sessions[e.conn] && Deliveries(s, e) == []
  {
    hide Policy.Allows, PolicyFor, CountedDims, Authenticate, Charge, Quota.Run, Quota.Answer, LogFor, Through, Written;
  }

  lemma RelayedNext(env: Env, s: State, e: Event)
    ensures Next(env, s, e).relayed == s.relayed + Deliveries(s, e)
  {
    hide React, Writes, Stub, Deliveries, Append;
  }

  lemma DeliveredByOther(s: State, e: Event, c: nat)
    requires !e.OfSession() || e.conn != c
    ensures OfConn(s.relayed + Deliveries(s, e), c) == OfConn(s.relayed, c)
  {
    hide OfConn, Through, Held;
    if Deliveries(s, e) == [] {
      assert s.relayed + [] == s.relayed;
    } else {
      OfConnAppend(s.relayed, Deliveries(s, e)[0], c);
    }
  }

  lemma SessionsGrow(env: Env, s: State, e: Event, c: nat)
    requires c in s.sessions
    ensures c in Next(env, s, e).sessions
  {
    hide After, Writes, Stub, Deliveries, BuildSnapshot, Dial, ClientOf, Enters;
  }

  /** And nothing moves it any more. */
  lemma ClosedStays(env: Env, s: State, e: Event, c: nat)
    requires c in s.sessions && !s.sessions[c].open && s.sessions[c].phase.Ready?
    ensures var n := Next(env, s, e);
            c in n.sessions && n.sessions[c] == s.sessions[c] && OfConn(n.relayed, c) == OfConn(s.relayed, c)
  {
    hide Next, After, Deliveries, Enters, OfConn;
    RelayedNext(env, s, e);
    SessionsGrow(env, s, e, c);
    if !e.OfSession() || e.conn != c {
      OtherSessionStays(env, s, e, c);
      DeliveredByOther(s, e, c);
    } else if e.Connect? {
      ConnectEnters(env, s, c);
      OtherSessionStays(env, s, e, c);
      ConnectDelivers(s, c);
    } else {
      ClosedIsDone(env, s, e);
      assert s.relayed + [] == s.relayed;
      if Enters(env, s, e) {
        EnteredSession(env, s, e);
      } else {
        OtherSessionStays(env, s, e, c);
      }
    }
  }

  lemma ConnectDelivers(s: State, c: nat)
    ensures s.relayed + Deliveries(s, Connect(c)) == s.relayed
  {
  }

  /** How many steps of a run began a password check on connection `c`. */
  ghost function ChecksBegun(env: Env, cfg: Config, events: seq<Event>, c: nat): nat {
    if events == [] then 0
    else
      var before := events[..|events| - 1];
      ChecksBegun(env, cfg, before, c)
      + if c in Verifiers(RunOf(env, cfg, events)) && c !in Verifiers(RunOf(env, cfg, before)) then 1 else 0
  }

  lemma {:induction false} BeginsAreCounted(env: Env, cfg: Config, events: seq<Event>, c: nat)
    ensures var s := RunOf(env, cfg, events);
            ChecksBegun(env, cfg, events, c) == if c in s.sessions then s.sessions[c].verifications else 0
  {
    hide Next, Inv, Start, Moved, Enters;
    if events == [] {
      NoSessionsYet(env, cfg);
    } else {
      var n := |events| - 1;
      var before, e := events[..n], events[n];
      BeginsAreCounted(env, cfg, before, c);
      RunKeeps(env, cfg, before);
      BeginStep(env, RunOf(env, cfg, before), e, c);
    }
  }

  lemma BeginStep(env: Env, s: State, e: Event, c: nat)
    requires Inv(env, s)
    ensures var n := Next(env, s, e);
            (if c in n.sessions then n.sessions[c].verifications else 0)
            == (if c in s.sessions then s.sessions[c].verifications else 0)
               + if c in Verifiers(n) && c !in Verifiers(s) then 1 else 0
  {
    hide Next, Inv, Enters, EndAuth;
    if c in s.sessions {
      SessionsStay(env, s, e, c);
    }
    if c in Next(env, s, e).sessions {
      LoginStep(env, s, e, c);
    }
  }

  lemma SessionsStay(env: Env, s: State, e: Event, c: nat)
    requires c in s.sessions
    ensures c in Next(env, s, e).sessions
  {
    hide After, Writes, Stub, Deliveries, BuildSnapshot, Dial, ClientOf, Enters;
  }

  /** Password checks never use more than the processors allow, and at most three
      steps of a run begin one on the same connection. */
  lemma VerificationsAreBounded(env: Env, cfg: Config, events: seq<Event>, c: nat)
    ensures |Verifiers(RunOf(env, cfg, events))| <= (if env.procs > 2 then env.procs - 1 else 1)
    ensures ChecksBegun(env, cfg, events, c) <= 3
  {
    RunKeeps(env, cfg, events);
    BeginsAreCounted(env, cfg, events, c);
    hide RunFrom, RelayedOk, ClientsOk, WellBuilt, PhaseOk, AccountOk, MailedOk, ChecksBegun;
    var s := RunOf(env, cfg, events);
    if c in s.sessions {
      assert SessionOk(env, s.history, s.logs, s.sessions[c]);
    }
  }

  /** The store connection in service is open and was made to the store its
      configuration names; each one superseded was closed once, and no other. */
  lemma StoreConnections(env: Env, cfg: Config, events: seq<Event>, x: nat)
    ensures var s := RunOf(env, cfg, events);
            && s.closed[x] == (if x in s.inService && x !in ClientOf(s.current) then 1 else 0)
            && (s.current.limiter.Some? ==>
                  var l := s.current.limiter.value;
                  && l.client in s.inService && s.closed[l.client] == 0
                  && s.current.config.rateLimit == Some(l.limit)
                  && l.client in s.dialled && s.dialled[l.client] == l.limit.store)
  {
    RunKeeps(env, cfg, events);
    hide RunFrom, RelayedOk, SessionsOk, PolicyOf;
  }

  /** The configuration of the last reload that succeeded. */
  function LastLoaded(cfg: Config, events: seq<Event>): Config {
    if events == [] then cfg
    else
      var e := events[|events| - 1];
      if e.Reload? && e.result.Loaded? then e.cfg else LastLoaded(cfg, events[..|events| - 1])
  }

  /** What is served is what the last successful reload asked for, however many
      failed after it; a failed one also touches no session and closes nothing. */
  lemma {:induction false} InServiceIsLastLoaded(env: Env, cfg: Config, events: seq<Event>)
    ensures var current, loaded := RunOf(env, cfg, events).current, LastLoaded(cfg, events);
            && current.config == loaded
            && current.accounts == ByUsername(Served(env.cost, loaded.accounts, |loaded.accounts|))
            && current.policies == map u | u in current.accounts :: PolicyOf(current.accounts[u])
    ensures events != [] && events[|events| - 1].Reload? && !events[|events| - 1].result.Loaded? ==>
              var before, after := RunOf(env, cfg, events[..|events| - 1]), RunOf(env, cfg, events);
              after.current == before.current && after.sessions == before.sessions && after.closed == before.closed
  {
    hide PolicyOf, ByUsername, Served, Dial, ClientOf, ReusableLimiter, After, Writes, Stub, Deliveries, Enters;
    if events != [] {
      var n := |events| - 1;
      InServiceIsLastLoaded(env, cfg, events[..n]);
      CurrentAfter(env, RunOf(env, cfg, events[..n]), events[n]);
    }
  }

  // ---------- Counting is the limiter's check ----------

  /** The steps of a check: each dimension's increment and expiry, with what
      other replicas bring to the store before and between. */
  function CheckEvents(k: nat, c: nat, calls: Dimension -> Quota.Call, dims: seq<Dimension>): seq<Event> {
    if dims == [] then []
    else
      var call := calls(dims[0]);
      [Others(k, call.before)] + ([DataIncr(c, call.clock, call.at, call.fate)]
      + ([Others(k, call.between)] + ([DataExpire(c, call.expireAt)] + CheckEvents(k, c, calls, dims[1..]))))
  }

  lemma {:induction false} RunAppend(env: Env, s: State, a: seq<Event>, b: seq<Event>)
    ensures RunFrom(env, s, a + b) == RunFrom(env, RunFrom(env, s, a), b)
    decreases |b|
  {
    hide Next;
    if b == [] {
      assert a + b == a;
    } else {
      var n := |b| - 1;
      assert (a + b)[..|a + b| - 1] == a + b[..n];
      RunAppend(env, s, a, b[..n]);
    }
  }

  lemma RunCons(env: Env, s: State, e: Event, rest: seq<Event>)
    ensures RunFrom(env, s, [e] + rest) == RunFrom(env, Next(env, s, e), rest)
  {
    hide Next;
    RunAppend(env, s, [e], rest);
    assert [e][..0] == [];
  }

  // Everything but one session and the logs is as it was.
  ghost predicate Beside(s: State, n: State, c: nat) {
    && c in s.sessions && c in n.sessions
    && n.current == s.current && n.closed == s.closed && n.relayed == s.relayed
  }

  lemma OthersStep(env: Env, s: State, k: nat, cmds: seq<Quota.Command>, c: nat)
    requires c in s.sessions
    ensures var n := Next(env, s, Others(k, cmds));
            Beside(s, n, c) && n.sessions[c] == s.sessions[c] && LogOf(n.logs, k) == LogOf(s.logs, k) + cmds
  {
    hide Append, LogOf;
    LogOfAppend(s.logs, k, cmds, k);
    assert s.relayed + [] == s.relayed;
  }

  lemma SessionStep(env: Env, s: State, e: Event)
    requires e.OfSession() && !e.Connect? && !e.DataSend? && Enters(env, s, e)
    ensures var n := Next(env, s, e);
            && Beside(s, n, e.conn) && n.sessions[e.conn] == After(env, s, e)
            && (var (k, cmds) := Writes(env, s, e); n.logs == Append(s.logs, k, cmds))
  {
    hide After, Writes, Stub, Append;
    assert s.relayed + [] == s.relayed;
  }

  lemma IncrStep(env: Env, s: State, c: nat, clock: nat, at: nat, fate: Quota.Fate)
    requires c in s.sessions
    ensures var n, t := Next(env, s, DataIncr(c, clock, at, fate)), s.sessions[c];
            Beside(s, n, c) && n.sessions[c] == DoIncr(t, s.closed, LogFor(env, s.logs, t), clock, at, fate)
    ensures var n, t := Next(env, s, DataIncr(c, clock, at, fate)), s.sessions[c];
            Reaches(t, s.closed, fate) ==>
              var k := env.server(t.snap.limiter.value.limit.store);
              LogOf(n.logs, k) == LogOf(s.logs, k) + [Charge(t, clock, at)]
  {
    hide Append, LogOf, DoIncr, Charge;
    SessionStep(env, s, DataIncr(c, clock, at, fate));
    var t := s.sessions[c];
    if Reaches(t, s.closed, fate) {
      var k := env.server(t.snap.limiter.value.limit.store);
      LogOfAppend(s.logs, k, [Charge(t, clock, at)], k);
    }
  }

  lemma ExpireStep(env: Env, s: State, c: nat, at: nat)
    requires c in s.sessions
    ensures var n, t := Next(env, s, DataExpire(c, at)), s.sessions[c];
            Beside(s, n, c) && n.sessions[c] == DoExpire(t)
    ensures var n, t := Next(env, s, DataExpire(c, at)), s.sessions[c];
            Owing(t) ==>
              var k := env.server(t.snap.limiter.value.limit.store);
              LogOf(n.logs, k) == LogOf(s.logs, k) + [Expiry(t, at)]
  {
    hide Append, LogOf, DoExpire, Expiry;
    SessionStep(env, s, DataExpire(c, at));
    var t := s.sessions[c];
    if Owing(t) {
      var k := env.server(t.snap.limiter.value.limit.store);
      LogOfAppend(s.logs, k, [Expiry(t, at)], k);
    }
  }

  // A check that has been refused touches its session no more.
  lemma {:induction false} RefusedStays(env: Env, s: State, k: nat, c: nat, calls: Dimension -> Quota.Call,
                                        dims: seq<Dimension>)
    requires c in s.sessions && s.sessions[c].phase.Ready?
    ensures var n := RunFrom(env, s, CheckEvents(k, c, calls, dims));
            Beside(s, n, c) && n.sessions[c] == s.sessions[c]
    decreases |dims|
  {
    hide Next, RunFrom;
    if dims == [] {
      RunNothing(env, s);
    } else {
      var call, rest := calls(dims[0]), CheckEvents(k, c, calls, dims[1..]);
      var e1, e2 := Others(k, call.before), DataIncr(c, call.clock, call.at, call.fate);
      var e3, e4 := Others(k, call.between), DataExpire(c, call.expireAt);
      RunFour(env, s, e1, e2, e3, e4, rest);
      OthersStep(env, s, k, call.before, c);
      var s1 := Next(env, s, e1);
      IncrStep(env, s1, c, call.clock, call.at, call.fate);
      var s2 := Next(env, s1, e2);
      OthersStep(env, s2, k, call.between, c);
      var s3 := Next(env, s2, e3);
      ExpireStep(env, s3, c, call.expireAt);
      RefusedStays(env, Next(env, s3, e4), k, c, calls, dims[1..]);
    }
  }

  lemma RunNothing(env: Env, s: State)
    ensures RunFrom(env, s, []) == s
  {
  }

  lemma RunFour(env: Env, s: State, a: Event, b: Event, c: Event, d: Event, rest: seq<Event>)
    ensures RunFrom(env, s, [a] + ([b] + ([c] + ([d] + rest))))
         == RunFrom(env, Next(env, Next(env, Next(env, Next(env, s, a), b), c), d), rest)
  {
    hide Next, RunFrom;
    var s1 := Next(env, s, a);
    var s2 := Next(env, s1, b);
    var s3 := Next(env, s2, c);
    RunCons(env, s, a, [b] + ([c] + ([d] + rest)));
    RunCons(env, s1, b, [c] + ([d] + rest));
    RunCons(env, s2, c, [d] + rest);
    RunCons(env, s3, d, rest);
  }

  // A session with dimensions left to count, on an open connection to store `k`.
  ghost predicate Counts(env: Env, s: State, c: nat, k: nat, dims: seq<Dimension>) {
    && c in s.sessions && s.sessions[c].account.Some? && s.sessions[c].snap.limiter.Some?
    && s.sessions[c].phase.Counting? && s.sessions[c].phase.dims == dims
    && (var l := s.sessions[c].snap.limiter.value;
        && l.client !in s.closed && k == env.server(l.limit.store)
        && forall d | d in dims :: Quota.Counted(l.limit.limits, |s.sessions[c].to|, d))
  }

  function RequestOf(t: Session): Quota.Request
    requires t.account.Some? && t.snap.limiter.Some?
  {
    var l := t.snap.limiter.value;
    Quota.Request(l.gateway, t.account.value.username, |t.to|, l.limit.limits)
  }

  // The state after one dimension's increment and expiry.
  ghost function Answered(env: Env, s: State, c: nat, k: nat, call: Quota.Call): State {
    Next(env, Next(env, Next(env, Next(env, s, Others(k, call.before)), DataIncr(c, call.clock, call.at, call.fate)),
                   Others(k, call.between)), DataExpire(c, call.expireAt))
  }

  // What the two commands of an answered increment leave in the log.
  lemma RanInOrder(log: seq<Quota.Command>, r: Quota.Request, d: Dimension, call: Quota.Call)
    requires Quota.AmountFor(r.recipients, d) > 0 && call.fate.Answered?
    ensures log + call.before + [Quota.Incr(r, d, call)] + call.between
            + [Quota.ExpireNX(r.gateway, r.account, d, call.clock, call.expireAt)] == log + Quota.Ran(r, d, call)
  {
    hide Quota.Incr;
  }

  lemma AskOne(env: Env, s: State, c: nat, k: nat, calls: Dimension -> Quota.Call, dims: seq<Dimension>)
    requires dims != [] && Counts(env, s, c, k, dims)
    ensures var n, t, d, call := Answered(env, s, c, k, calls(dims[0])), s.sessions[c], dims[0], calls(dims[0]);
            var r := RequestOf(t);
            var log := LogOf(s.logs, k);
            && Beside(s, n, c) && Quota.AmountFor(r.recipients, d) > 0
            && if !call.fate.Answered?
                  || Quota.Answer(Quota.Run(log + call.before), Quota.Incr(r, d, call)) > Quota.LimitFor(r.limits, d)
               then n.sessions[c] == Reset(t)
               else LogOf(n.logs, k) == log + Quota.Ran(r, d, call) && n.sessions[c].phase.Counting?
                    && n.sessions[c] == t.(phase := Counting(t.phase.at, dims[1..], n.sessions[c].phase.counts))
  {
    hide Next, LogOf, Quota.Answer, Quota.Run, Quota.Ran;
    var t, d, call := s.sessions[c], dims[0], calls(dims[0]);
    assert d in dims;
    var r := RequestOf(t);
    var s1 := Next(env, s, Others(k, call.before));
    OthersStep(env, s, k, call.before, c);
    IncrStep(env, s1, c, call.clock, call.at, call.fate);
    var s2 := Next(env, s1, DataIncr(c, call.clock, call.at, call.fate));
    OthersStep(env, s2, k, call.between, c);
    var s3 := Next(env, s2, Others(k, call.between));
    ExpireStep(env, s3, c, call.expireAt);
    assert Charge(t, call.clock, call.at) == Quota.Incr(r, d, call);
    if call.fate.Answered? {
      assert Reaches(t, s1.closed, call.fate) && Owing(s3.sessions[c]);
      RanInOrder(LogOf(s.logs, k), r, d, call);
    }
  }

  // The steps of a check, dimension by dimension.
  lemma {:induction false} CountingRuns(env: Env, s: State, c: nat, k: nat, calls: Dimension -> Quota.Call,
                                        dims: seq<Dimension>)
    requires Counts(env, s, c, k, dims)
    ensures var n, t := RunFrom(env, s, CheckEvents(k, c, calls, dims)), s.sessions[c];
            var (log, outcome) := Quota.CheckDims(RequestOf(t), calls, dims, LogOf(s.logs, k));
            && Beside(s, n, c)
            && if outcome.Allowed?
               then LogOf(n.logs, k) == log && n.sessions[c].phase.Counting?
                    && n.sessions[c] == t.(phase := Counting(t.phase.at, [], n.sessions[c].phase.counts))
               else n.sessions[c] == Reset(t)
    decreases |dims|
  {
    hide Next, RunFrom, LogOf, Quota.Answer, Quota.Run, Quota.Ran, Quota.Incr, Answered;
    if dims == [] {
      RunNothing(env, s);
    } else {
      var t, call := s.sessions[c], calls(dims[0]);
      AskOne(env, s, c, k, calls, dims);
      AnsweredRuns(env, s, c, k, calls, dims);
      var n := Answered(env, s, c, k, call);
      if n.sessions[c].phase.Counting? {
        CountingRuns(env, n, c, k, calls, dims[1..]);
      } else {
        RefusedStays(env, n, k, c, calls, dims[1..]);
      }
    }
  }

  lemma AnsweredRuns(env: Env, s: State, c: nat, k: nat, calls: Dimension -> Quota.Call, dims: seq<Dimension>)
    requires dims != []
    ensures RunFrom(env, s, CheckEvents(k, c, calls, dims))
         == RunFrom(env, Answered(env, s, c, k, calls(dims[0])), CheckEvents(k, c, calls, dims[1..]))
  {
    hide Next, RunFrom;
    var call := calls(dims[0]);
    RunFour(env, s, Others(k, call.before), DataIncr(c, call.clock, call.at, call.fate),
            Others(k, call.between), DataExpire(c, call.expireAt), CheckEvents(k, c, calls, dims[1..]));
  }

  // The check skips the dimensions that are not counted.
  lemma CheckSkips(l: Limiter, r: Quota.Request, calls: Dimension -> Quota.Call, log: seq<Quota.Command>)
    requires r.limits == l.limit.limits && r.recipients >= 0
    ensures Quota.CheckDims(r, calls, Quota.DIMENSIONS, log)
            == Quota.CheckDims(r, calls, CountedDims(Some(l), r.recipients), log)
  {
    hide Quota.Run, Quota.Answer, Quota.Ran, Quota.Incr;
    assert Quota.DIMENSIONS[1..] == [Recipients];
    assert [Recipients][1..] == [] && [Messages][1..] == [];
    assert [Messages] + [Recipients] == Quota.DIMENSIONS;
    assert [Messages] + [] == [Messages] && [] + [Recipients] == [Recipients];
  }

  /** The counting steps of DATA do what `check` does: the session goes on exactly
      when every answer of the store is within its limit, and the store then holds
      what the check wrote. */
  lemma CountingIsCheck(env: Env, s: State, c: nat, k: nat, calls: Dimension -> Quota.Call)
    requires c in s.sessions && s.sessions[c].snap.limiter.Some?
    requires Counts(env, s, c, k, CountedDims(s.sessions[c].snap.limiter, |s.sessions[c].to|))
    ensures var t := s.sessions[c];
            var n := RunFrom(env, s, CheckEvents(k, c, calls, CountedDims(t.snap.limiter, |t.to|)));
            var (log, outcome) := Quota.CheckDims(RequestOf(t), calls, Quota.DIMENSIONS, LogOf(s.logs, k));
            && Beside(s, n, c)
            && if outcome.Allowed?
               then LogOf(n.logs, k) == log && n.sessions[c].phase.Counting?
                    && n.sessions[c] == t.(phase := Counting(t.phase.at, [], n.sessions[c].phase.counts))
               else n.sessions[c] == Reset(t)
  {
    hide RunFrom, CheckEvents, CountedDims, Quota.CheckDims, LogOf, Reset, Beside;
    var t := s.sessions[c];
    CheckSkips(t.snap.limiter.value, RequestOf(t), calls, LogOf(s.logs, k));
    CountingRuns(env, s, c, k, calls, CountedDims(t.snap.limiter, |t.to|));
  }

  /** An increment whose pair of commands did not both run refuses the message, and
      no expiry follows it. */
  lemma LostGivesUp(env: Env, s: State, c: nat, clock: nat, at: nat, fate: Quota.Fate, later: nat)
    requires c in s.sessions && Due(s.sessions[c])
    requires fate.NothingRan? || fate.IncrRan? || s.sessions[c].snap.limiter.value.client in s.closed
    ensures var n := Next(env, s, DataIncr(c, clock, at, fate));
            && c in n.sessions && n.sessions[c] == Reset(s.sessions[c]) && Writes(env, n, DataExpire(c, later)).1 == []
            && Writes(env, s, DataIncr(c, clock, at, fate)).1
               == if fate.NothingRan? || s.sessions[c].snap.limiter.value.client in s.closed then []
                  else [Charge(s.sessions[c], clock, at)]
  {
    hide Next, LogFor, Charge, Quota.Run, Quota.Answer, Enters;
    var e := DataIncr(c, clock, at, fate);
    assert Enters(env, s, e) by { AlwaysEnters(env, s, e); }
    EnteredSession(env, s, e);
  }

  // ---------- Other sessions in between ----------

  /** A step that is none of connection `c`'s and leaves the snapshot in service:
      other sessions, other replicas, reloads that fail. */
  predicate Foreign(e: Event, c: nat) {
    (e.Reload? ==> !e.result.Loaded?) && (e.OfSession() ==> e.conn != c)
  }

  predicate AllForeign(events: seq<Event>, c: nat) {
    forall i :: 0 <= i < |events| ==> Foreign(events[i], c)
  }

  /** What connection `c` has relayed. */
  function OfConn(relayed: seq<Delivery>, c: nat): seq<Delivery> {
    if relayed == [] then []
    else
      var n := |relayed| - 1;
      OfConn(relayed[..n], c) + if relayed[n].conn == c then [relayed[n]] else []
  }

  lemma OfConnAppend(relayed: seq<Delivery>, d: Delivery, c: nat)
    ensures OfConn(relayed + [d], c) == OfConn(relayed, c) + if d.conn == c then [d] else []
  {
    assert (relayed + [d])[..|relayed|] == relayed;
  }

  // Connection `c` cannot tell the two states apart.
  ghost predicate Alike(s: State, n: State, c: nat) {
    && n.current == s.current && n.closed == s.closed && OfConn(n.relayed, c) == OfConn(s.relayed, c)
    && (c in n.sessions <==> c in s.sessions) && (c in s.sessions ==> n.sessions[c] == s.sessions[c])
  }

  lemma ForeignRelays(s: State, e: Event, c: nat)
    requires Foreign(e, c)
    ensures OfConn(s.relayed + Deliveries(s, e), c) == OfConn(s.relayed, c)
  {
    hide Through, SignedFor, OfConn;
    if Deliveries(s, e) == [] {
      assert s.relayed + [] == s.relayed;
    } else {
      OfConnAppend(s.relayed, Deliveries(s, e)[0], c);
    }
  }

  lemma ForeignStep(env: Env, s: State, e: Event, c: nat)
    requires Foreign(e, c)
    ensures Alike(s, Next(env, s, e), c)
  {
    hide After, Writes, Stub, Deliveries, Enters, OfConn, Append;
    ForeignRelays(s, e, c);
  }

  lemma {:induction false} ForeignSteps(env: Env, s: State, events: seq<Event>, c: nat)
    requires AllForeign(events, c)
    ensures Alike(s, RunFrom(env, s, events), c)
  {
    hide Next, OfConn;
    if events != [] {
      var n := |events| - 1;
      ForeignSteps(env, s, events[..n], c);
      ForeignStep(env, RunFrom(env, s, events[..n]), events[n], c);
    }
  }

  /** A session's own steps with other steps before each of them. Every
      interleaving of the two is of this form. */
  function Weave(own: seq<Event>, gaps: nat -> seq<Event>, i: nat): seq<Event> {
    if own == [] then [] else gaps(i) + ([own[0]] + Weave(own[1..], gaps, i + 1))
  }

  ghost function RunOwn(env: Env, s: State, own: seq<Event>, gaps: nat -> seq<Event>, i: nat): State
    decreases |own|
  {
    if own == [] then s else RunOwn(env, Next(env, RunFrom(env, s, gaps(i)), own[0]), own[1..], gaps, i + 1)
  }

  lemma {:induction false} WeaveRuns(env: Env, s: State, own: seq<Event>, gaps: nat -> seq<Event>, i: nat)
    ensures RunFrom(env, s, Weave(own, gaps, i)) == RunOwn(env, s, own, gaps, i)
    decreases |own|
  {
    hide Next, RunFrom;
    if own == [] {
      RunNothing(env, s);
    } else {
      var m := RunFrom(env, s, gaps(i));
      var rest := Weave(own[1..], gaps, i + 1);
      RunAppend(env, s, gaps(i), [own[0]] + rest);
      RunCons(env, m, own[0], rest);
      WeaveRuns(env, Next(env, m, own[0]), own[1..], gaps, i + 1);
    }
  }

  /** The step gets what it needs from its surroundings: a slot for a password
      check, and an answer within the limit for an increment. */
  ghost predicate Welcome(env: Env, s: State, e: Event) {
    && (e.AuthBegin? ==> |Verifiers(s)| < if env.procs > 2 then env.procs - 1 else 1)
    && (e.DataIncr? && e.conn in s.sessions && Due(s.sessions[e.conn]) ==>
          var t := s.sessions[e.conn];
          && e.fate.Answered?
          && Quota.Answer(Quota.Run(LogFor(env, s.logs, t)), Charge(t, e.clock, e.at))
             <= Quota.LimitFor(t.snap.limiter.value.limit.limits, t.phase.dims[0]))
  }

  /** Every step of the session is welcome when its turn comes, and what falls in
      between is foreign. */
  ghost predicate AllWelcome(env: Env, s: State, own: seq<Event>, gaps: nat -> seq<Event>, i: nat, c: nat)
    decreases |own|
  {
    own == [] ||
    (&& AllForeign(gaps(i), c)
     && Welcome(env, RunFrom(env, s, gaps(i)), own[0])
     && AllWelcome(env, Next(env, RunFrom(env, s, gaps(i)), own[0]), own[1..], gaps, i + 1, c))
  }

  lemma {:induction false} OwnSplits(env: Env, s: State, a: seq<Event>, b: seq<Event>, gaps: nat -> seq<Event>,
                                     i: nat, c: nat)
    ensures RunOwn(env, s, a + b, gaps, i) == RunOwn(env, RunOwn(env, s, a, gaps, i), b, gaps, i + |a|)
    ensures AllWelcome(env, s, a + b, gaps, i, c) ==>
              AllWelcome(env, s, a, gaps, i, c) && AllWelcome(env, RunOwn(env, s, a, gaps, i), b, gaps, i + |a|, c)
    decreases |a|
  {
    hide Next, RunFrom, Welcome, AllForeign;
    if a == [] {
      assert a + b == b;
    } else {
      assert (a + b)[1..] == a[1..] + b;
      OwnSplits(env, Next(env, RunFrom(env, s, gaps(i)), a[0]), a[1..], b, gaps, i + 1, c);
    }
  }

  // The state a session's next own step finds.
  lemma OwnFirst(env: Env, s: State, e: Event, gaps: nat -> seq<Event>, i: nat, c: nat)
    requires AllWelcome(env, s, [e], gaps, i, c)
    ensures var m := RunFrom(env, s, gaps(i));
            Alike(s, m, c) && Welcome(env, m, e) && RunOwn(env, s, [e], gaps, i) == Next(env, m, e)
  {
    hide Next, RunFrom, Welcome, Alike;
    ForeignSteps(env, s, gaps(i), c);
    assert [e][1..] == [];
  }

  // ---------- Nothing authorized is held back ----------

  /** What the relay asks of a message: the configuration serves an account of
      that name that is not disabled, this is its password, and its list allows
      the sender, and the From header unless the account is exempt. */
  ghost predicate MaySend(env: Env, cfg: Config, k: int, u: string, password: string, from: string, a: Arrival) {
    FirstNamed(env.cost, cfg.accounts, u, k) &&
    var account := cfg.accounts[k];
    && !account.disabled && env.verify(account.passwordHash, password)
    && Allows(Compile(account.allowedSenders), from)
    && (account.skipHeaderFromCheck
        || CheckFrom(ReceivedHeader(a.ehlo, a.remote, cfg.hostname, u, a.date) + a.content,
                     Compile(account.allowedSenders)).None?)
  }

  /** The same of what is in service. */
  ghost predicate Entitled(env: Env, snap: Snapshot, u: string, password: string, from: string, a: Arrival) {
    && Enabled(snap, u) && env.verify(snap.accounts[u].passwordHash, password)
    && Allows(PolicyFor(snap, u).senders, from)
    && FromOk(PolicyFor(snap, u), Written(snap, u, a))
  }

  lemma {:induction false} CurrentServes(env: Env, cfg: Config, events: seq<Event>, u: string)
    ensures var snap := RunOf(env, cfg, events).current;
            && (u in snap.accounts <==> exists k :: FirstNamed(env.cost, snap.config.accounts, u, k))
            && (forall k | FirstNamed(env.cost, snap.config.accounts, u, k) ::
                  u in snap.accounts && snap.accounts[u] == snap.config.accounts[k])
  {
    hide React, BuildSnapshot, Writes, Stub, Deliveries, FirstNamed;
    if events == [] {
      ConfigOf(env, cfg, None, 0);
      SnapshotServes(env, cfg, None, 0, u);
    } else {
      var n := |events| - 1;
      CurrentServes(env, cfg, events[..n], u);
      var s := RunOf(env, cfg, events[..n]);
      CurrentAfter(env, s, events[n]);
      if events[n].Reload? {
        ConfigOf(env, events[n].cfg, Some(s.current), s.clients);
        SnapshotServes(env, events[n].cfg, Some(s.current), s.clients, u);
      }
    }
  }

  lemma MaySendIsEntitled(env: Env, snap: Snapshot, k: nat, u: string, password: string, from: string, a: Arrival)
    requires MaySend(env, snap.config, k, u, password, from, a) && WellBuilt(snap)
    requires u in snap.accounts && snap.accounts[u] == snap.config.accounts[k]
    ensures Entitled(env, snap, u, password, from, a)
  {
    hide Allows, Compile, CheckFrom, ReceivedHeader, WellBuilt, PolicyFor, FirstNamed;
    ServedPolicy(snap, u);
  }

  /** The filters, behaving as they do, make `mail` of the message and let it
      through. */
  ghost predicate Passing(snap: Snapshot, mail: Milter.Mail, behave: nat -> Milter.Behaviour, sent: Milter.Mail) {
    var filters := Milter.Met(snap.config.filters, behave);
    && (forall k :: 0 <= k < |snap.config.filters| ==> Milter.Healthy(behave(k).faults))
    && exists ms :: Milter.Passage(mail, filters, ms) && ms[|filters|] == sent
  }

  function FilteredAs(snap: Snapshot, sent: Milter.Mail): Milter.Filtered {
    if snap.config.filters == [] then Milter.NoFilters else Milter.Left(sent)
  }

  lemma PassingGoesThrough(snap: Snapshot, mail: Milter.Mail, behave: nat -> Milter.Behaviour, sent: Milter.Mail)
    requires Passing(snap, mail, behave, sent)
    ensures Through(snap, mail, behave, FilteredAs(snap, sent)) && (snap.config.filters == [] ==> sent == mail)
  {
    hide Milter.Healthy, Milter.FailsClosed, Milter.Chain, Milter.Leg;
    var filters := Milter.Met(snap.config.filters, behave);
    Milter.ChainIs(mail, filters, sent);
    var ms :| Milter.Passage(mail, filters, ms) && ms[|filters|] == sent;
    forall f | f in filters ensures f.reply.Actions? || (f.reply.Unreachable? && f.failOpen) {
      var k :| 0 <= k < |filters| && filters[k] == f;
      Milter.LegLets(f, ms[k], ms[k + 1]);
    }
  }

  /** When the commands of an increment are named and run. */
  datatype Times = Times(clock: nat, at: nat, expireAt: nat)

  function Rcpts(c: nat, to: seq<string>): seq<Event> {
    if to == [] then [] else Rcpts(c, to[..|to| - 1]) + [Rcpt(c, to[|to| - 1])]
  }

  function CountEvents(c: nat, dims: seq<Dimension>, times: Dimension -> Times): seq<Event> {
    if dims == [] then []
    else
      var t := times(dims[0]);
      [DataIncr(c, t.clock, t.at, Quota.Answered)] + ([DataExpire(c, t.expireAt)] + CountEvents(c, dims[1..], times))
  }

  function Greeting(c: nat, u: string, password: string, from: string): seq<Event> {
    [Connect(c)] + ([AuthBegin(c, u, password)] + ([AuthEnd(c)] + [Mail(c, from)]))
  }

  /** One session's own steps, from connecting to handing its message over. */
  function Dialogue(snap: Snapshot, c: nat, u: string, password: string, from: string, to: seq<string>,
                    times: Dimension -> Times, a: Arrival, behave: nat -> Milter.Behaviour,
                    sent: Milter.Mail): seq<Event>
  {
    Greeting(c, u, password, from)
    + (Rcpts(c, to)
       + ([DataBegin(c)]
          + (CountEvents(c, CountedDims(snap.limiter, |to|), times)
             + ([DataBody(c, a)] + [DataSend(c, behave, FilteredAs(snap, sent))]))))
  }

  // Nothing that concerns connection `c` but its session has changed.
  ghost predicate Undisturbed(b: State, n: State, c: nat) {
    && c in n.sessions && n.current == b.current && n.closed == b.closed && OfConn(n.relayed, c) == OfConn(b.relayed, c)
  }

  lemma OwnStep(env: Env, b: State, s: State, e: Event)
    requires e.OfSession() && !e.Connect? && !e.DataSend? && Undisturbed(b, s, e.conn)
    requires e.AuthBegin? ==> |Verifiers(s)| < Slots(env)
    ensures var n := Next(env, s, e); Undisturbed(b, n, e.conn) && n.sessions[e.conn] == After(env, s, e)
  {
    hide Next, After, OfConn, Verifiers, Slots, Writes, Append;
    SessionStep(env, s, e);
  }

  // Session `c` was made and has done nothing yet.
  ghost predicate New(b: State, n: State, c: nat) {
    && Undisturbed(b, n, c)
    && (var t := n.sessions[c]; t.open && t.phase.Ready? && t.account.None? && t.failures == 0 && t.snap == b.current)
  }

  // Session `c` is having its password checked.
  ghost predicate Asking(b: State, n: State, c: nat, u: string, password: string) {
    && Undisturbed(b, n, c)
    && (var t := n.sessions[c]; t.open && t.phase == Verifying(u, password) && t.account.None? && t.snap == b.current)
  }

  // Session `c` has logged in as `u`.
  ghost predicate In(b: State, n: State, c: nat, u: string) {
    && Undisturbed(b, n, c)
    && (var t := n.sessions[c];
        t.open && t.phase.Ready? && u in b.current.accounts && t.account == Some(b.current.accounts[u])
        && t.account.value.username == u)
  }

  // The envelope sent so far.
  ghost predicate Sent(n: State, c: nat, from: string, to: seq<string>) {
    c in n.sessions && n.sessions[c].mailed && n.sessions[c].from == from && n.sessions[c].to == to
  }

  lemma GreetingSplits(env: Env, s: State, c: nat, u: string, password: string, from: string, gaps: nat -> seq<Event>,
                       i: nat)
    requires AllWelcome(env, s, Greeting(c, u, password, from), gaps, i, c)
    ensures var s1 := RunOwn(env, s, [Connect(c)], gaps, i);
            var s2 := RunOwn(env, s1, [AuthBegin(c, u, password)], gaps, i + 1);
            var s3 := RunOwn(env, s2, [AuthEnd(c)], gaps, i + 2);
            && AllWelcome(env, s, [Connect(c)], gaps, i, c)
            && AllWelcome(env, s1, [AuthBegin(c, u, password)], gaps, i + 1, c)
            && AllWelcome(env, s2, [AuthEnd(c)], gaps, i + 2, c)
            && AllWelcome(env, s3, [Mail(c, from)], gaps, i + 3, c)
            && RunOwn(env, s, Greeting(c, u, password, from), gaps, i) == RunOwn(env, s3, [Mail(c, from)], gaps, i + 3)
  {
    hide RunOwn, AllWelcome;
    var e1, e2, e3, e4 := [Connect(c)], [AuthBegin(c, u, password)], [AuthEnd(c)], [Mail(c, from)];
    OwnSplits(env, s, e1, e2 + (e3 + e4), gaps, i, c);
    var s1 := RunOwn(env, s, e1, gaps, i);
    OwnSplits(env, s1, e2, e3 + e4, gaps, i + 1, c);
    var s2 := RunOwn(env, s1, e2, gaps, i + 1);
    OwnSplits(env, s2, e3, e4, gaps, i + 2, c);
  }

  lemma Connects(env: Env, b: State, gaps: nat -> seq<Event>, i: nat, c: nat)
    requires c !in b.sessions && AllWelcome(env, b, [Connect(c)], gaps, i, c)
    ensures New(b, RunOwn(env, b, [Connect(c)], gaps, i), c)
  {
    hide RunOwn, AllWelcome, RunFrom, Next, OfConn;
    OwnFirst(env, b, Connect(c), gaps, i, c);
    var m := RunFrom(env, b, gaps(i));
    ConnectStep(env, m, c);
  }

  lemma ConnectStep(env: Env, s: State, c: nat)
    requires c !in s.sessions
    ensures var n := Next(env, s, Connect(c));
            && n.sessions == s.sessions[c := NewSession(s.current, |s.history|)]
            && n.current == s.current && n.closed == s.closed && n.relayed == s.relayed
  {
    hide Slots;
    assert s.relayed + [] == s.relayed;
  }

  lemma Asks(env: Env, b: State, s: State, u: string, password: string, gaps: nat -> seq<Event>, i: nat, c: nat)
    requires New(b, s, c) && AllWelcome(env, s, [AuthBegin(c, u, password)], gaps, i, c)
    ensures Asking(b, RunOwn(env, s, [AuthBegin(c, u, password)], gaps, i), c, u, password)
  {
    hide RunOwn, AllWelcome, RunFrom, Next, OfConn, Verifiers;
    OwnFirst(env, s, AuthBegin(c, u, password), gaps, i, c);
    OwnStep(env, b, RunFrom(env, s, gaps(i)), AuthBegin(c, u, password));
  }

  lemma LogsIn(env: Env, b: State, s: State, u: string, password: string, gaps: nat -> seq<Event>, i: nat, c: nat)
    requires Asking(b, s, c, u, password) && AllWelcome(env, s, [AuthEnd(c)], gaps, i, c)
    requires WellBuilt(b.current) && Enabled(b.current, u) && env.verify(b.current.accounts[u].passwordHash, password)
    ensures In(b, RunOwn(env, s, [AuthEnd(c)], gaps, i), c, u)
  {
    hide RunOwn, AllWelcome, RunFrom, Next, OfConn, PolicyOf, UsernameOk;
    OwnFirst(env, s, AuthEnd(c), gaps, i, c);
    OwnStep(env, b, RunFrom(env, s, gaps(i)), AuthEnd(c));
  }

  lemma Mails(env: Env, b: State, s: State, u: string, from: string, gaps: nat -> seq<Event>, i: nat, c: nat)
    requires In(b, s, c, u) && AllWelcome(env, s, [Mail(c, from)], gaps, i, c)
    requires WellBuilt(b.current) && Enabled(b.current, u) && Allows(PolicyFor(b.current, u).senders, from)
    ensures var n := RunOwn(env, s, [Mail(c, from)], gaps, i); In(b, n, c, u) && Sent(n, c, from, [])
  {
    hide RunOwn, AllWelcome, RunFrom, Next, OfConn, Allows, PolicyFor, PolicyOf, UsernameOk;
    OwnFirst(env, s, Mail(c, from), gaps, i, c);
    OwnStep(env, b, RunFrom(env, s, gaps(i)), Mail(c, from));
  }

  lemma Greets(env: Env, b: State, c: nat, u: string, password: string, from: string, gaps: nat -> seq<Event>, i: nat)
    requires WellBuilt(b.current) && c !in b.sessions && AllWelcome(env, b, Greeting(c, u, password, from), gaps, i, c)
    requires Enabled(b.current, u) && env.verify(b.current.accounts[u].passwordHash, password)
    requires Allows(PolicyFor(b.current, u).senders, from)
    ensures var n := RunOwn(env, b, Greeting(c, u, password, from), gaps, i); In(b, n, c, u) && Sent(n, c, from, [])
  {
    hide RunOwn, AllWelcome, New, Asking, In, Sent, Enabled, Allows, PolicyFor, WellBuilt, Greeting;
    GreetingSplits(env, b, c, u, password, from, gaps, i);
    Connects(env, b, gaps, i, c);
    var s1 := RunOwn(env, b, [Connect(c)], gaps, i);
    Asks(env, b, s1, u, password, gaps, i + 1, c);
    var s2 := RunOwn(env, s1, [AuthBegin(c, u, password)], gaps, i + 1);
    LogsIn(env, b, s2, u, password, gaps, i + 2, c);
    Mails(env, b, RunOwn(env, s2, [AuthEnd(c)], gaps, i + 2), u, from, gaps, i + 3, c);
  }

  lemma RcptOnce(env: Env, b: State, s: State, u: string, from: string, to: seq<string>, r: string,
                 gaps: nat -> seq<Event>, i: nat, c: nat)
    requires In(b, s, c, u) && Sent(s, c, from, to) && AllWelcome(env, s, [Rcpt(c, r)], gaps, i, c)
    ensures var n := RunOwn(env, s, [Rcpt(c, r)], gaps, i); In(b, n, c, u) && Sent(n, c, from, to + [r])
  {
    hide RunOwn, AllWelcome, RunFrom, Next, OfConn;
    OwnFirst(env, s, Rcpt(c, r), gaps, i, c);
    OwnStep(env, b, RunFrom(env, s, gaps(i)), Rcpt(c, r));
  }

  lemma {:induction false} Addresses(env: Env, b: State, s: State, u: string, from: string, to: seq<string>,
                                     gaps: nat -> seq<Event>, i: nat, c: nat)
    requires In(b, s, c, u) && Sent(s, c, from, []) && AllWelcome(env, s, Rcpts(c, to), gaps, i, c)
    ensures var n := RunOwn(env, s, Rcpts(c, to), gaps, i); In(b, n, c, u) && Sent(n, c, from, to)
  {
    hide RunOwn, AllWelcome, In, Sent;
    if to == [] {
      OwnNothing(env, s, gaps, i);
    } else {
      var k := |to| - 1;
      var before := Rcpts(c, to[..k]);
      OwnSplits(env, s, before, [Rcpt(c, to[k])], gaps, i, c);
      Addresses(env, b, s, u, from, to[..k], gaps, i, c);
      RcptOnce(env, b, RunOwn(env, s, before, gaps, i), u, from, to[..k], to[k], gaps, i + |before|, c);
      assert to[..k] + [to[k]] == to;
    }
  }

  lemma OwnNothing(env: Env, s: State, gaps: nat -> seq<Event>, i: nat)
    ensures RunOwn(env, s, [], gaps, i) == s
  {
  }

  // DATA has begun on session `c`.
  ghost predicate Open(b: State, n: State, c: nat, u: string, from: string, to: seq<string>) {
    && Undisturbed(b, n, c)
    && (var t := n.sessions[c];
        && t.from == from && t.to == to && t.snap == b.current
        && u in b.current.accounts && t.account == Some(b.current.accounts[u]) && t.account.value.username == u)
  }

  ghost predicate Owed(n: State, c: nat, dims: seq<Dimension>) {
    c in n.sessions && n.sessions[c].phase.Counting? && n.sessions[c].phase.dims == dims
  }

  lemma DataBegins(env: Env, b: State, s: State, u: string, from: string, to: seq<string>, gaps: nat -> seq<Event>,
                   i: nat, c: nat)
    requires In(b, s, c, u) && Sent(s, c, from, to) && to != [] && AllWelcome(env, s, [DataBegin(c)], gaps, i, c)
    requires WellBuilt(b.current) && Enabled(b.current, u)
    ensures var n := RunOwn(env, s, [DataBegin(c)], gaps, i);
            Open(b, n, c, u, from, to) && Owed(n, c, CountedDims(b.current.limiter, |to|))
  {
    hide RunOwn, AllWelcome, RunFrom, Next, OfConn, CountedDims, PolicyOf, UsernameOk;
    OwnFirst(env, s, DataBegin(c), gaps, i, c);
    OwnStep(env, b, RunFrom(env, s, gaps(i)), DataBegin(c));
  }

  // The increment of `dims[0]` was answered within its limit.
  ghost predicate Within(n: State, c: nat, dims: seq<Dimension>) {
    && c in n.sessions && n.sessions[c].phase.Expiring? && n.sessions[c].phase.dims == dims && dims != []
    && n.sessions[c].snap.limiter.Some? && n.sessions[c].phase.reply.Some?
    && n.sessions[c].phase.reply.value <= Quota.LimitFor(n.sessions[c].snap.limiter.value.limit.limits, dims[0])
  }

  lemma Increments(env: Env, b: State, s: State, u: string, from: string, to: seq<string>, dims: seq<Dimension>,
                   t: Times, gaps: nat -> seq<Event>, i: nat, c: nat)
    requires Open(b, s, c, u, from, to) && Owed(s, c, dims) && dims != []
    requires b.current.limiter.Some? && b.current.limiter.value.client !in b.closed
    requires AllWelcome(env, s, [DataIncr(c, t.clock, t.at, Quota.Answered)], gaps, i, c)
    ensures var n := RunOwn(env, s, [DataIncr(c, t.clock, t.at, Quota.Answered)], gaps, i);
            Open(b, n, c, u, from, to) && Within(n, c, dims)
  {
    hide RunOwn, AllWelcome, RunFrom, Next, OfConn, Quota.Answer, Quota.Run, Charge;
    var e := DataIncr(c, t.clock, t.at, Quota.Answered);
    OwnFirst(env, s, e, gaps, i, c);
    OwnStep(env, b, RunFrom(env, s, gaps(i)), e);
  }

  lemma Expires(env: Env, b: State, s: State, u: string, from: string, to: seq<string>, dims: seq<Dimension>, at: nat,
                gaps: nat -> seq<Event>, i: nat, c: nat)
    requires Open(b, s, c, u, from, to) && Within(s, c, dims) && AllWelcome(env, s, [DataExpire(c, at)], gaps, i, c)
    ensures var n := RunOwn(env, s, [DataExpire(c, at)], gaps, i);
            Open(b, n, c, u, from, to) && Owed(n, c, dims[1..])
  {
    hide RunOwn, AllWelcome, RunFrom, Next, OfConn;
    OwnFirst(env, s, DataExpire(c, at), gaps, i, c);
    OwnStep(env, b, RunFrom(env, s, gaps(i)), DataExpire(c, at));
  }

  lemma {:induction false} CountsUp(env: Env, b: State, s: State, u: string, from: string, to: seq<string>,
                                    dims: seq<Dimension>, times: Dimension -> Times, gaps: nat -> seq<Event>, i: nat,
                                    c: nat)
    requires Open(b, s, c, u, from, to) && Owed(s, c, dims)
             && AllWelcome(env, s, CountEvents(c, dims, times), gaps, i, c)
    requires dims != [] ==> b.current.limiter.Some? && b.current.limiter.value.client !in b.closed
    ensures var n := RunOwn(env, s, CountEvents(c, dims, times), gaps, i); Open(b, n, c, u, from, to) && Owed(n, c, [])
    decreases |dims|
  {
    hide RunOwn, AllWelcome, Open, Owed, Within;
    if dims == [] {
      OwnNothing(env, s, gaps, i);
    } else {
      var t, rest := times(dims[0]), CountEvents(c, dims[1..], times);
      var e1, e2 := [DataIncr(c, t.clock, t.at, Quota.Answered)], [DataExpire(c, t.expireAt)];
      OwnSplits(env, s, e1, e2 + rest, gaps, i, c);
      Increments(env, b, s, u, from, to, dims, t, gaps, i, c);
      var s1 := RunOwn(env, s, e1, gaps, i);
      OwnSplits(env, s1, e2, rest, gaps, i + 1, c);
      Expires(env, b, s1, u, from, to, dims, t.expireAt, gaps, i + 1, c);
      CountsUp(env, b, RunOwn(env, s1, e2, gaps, i + 1), u, from, to, dims[1..], times, gaps, i + 2, c);
    }
  }

  ghost predicate Holding(n: State, c: nat, body: string) {
    c in n.sessions && n.sessions[c].phase.Checked? && n.sessions[c].phase.body == body
  }

  lemma Reads(env: Env, b: State, s: State, u: string, from: string, to: seq<string>, a: Arrival,
              gaps: nat -> seq<Event>, i: nat, c: nat)
    requires Open(b, s, c, u, from, to) && Owed(s, c, []) && AllWelcome(env, s, [DataBody(c, a)], gaps, i, c)
    requires FromOk(PolicyFor(b.current, u), Written(b.current, u, a))
    ensures var n := RunOwn(env, s, [DataBody(c, a)], gaps, i);
            Open(b, n, c, u, from, to) && Holding(n, c, Written(b.current, u, a))
  {
    hide RunOwn, AllWelcome, RunFrom, Next, OfConn, Written, FromOk, PolicyFor;
    OwnFirst(env, s, DataBody(c, a), gaps, i, c);
    OwnStep(env, b, RunFrom(env, s, gaps(i)), DataBody(c, a));
  }

  // Exactly one message of connection `c` was handed over.
  ghost predicate Delivered(b: State, n: State, c: nat, u: string, from: string, to: seq<string>, body: string,
                            sent: Milter.Mail)
  {
    && |OfConn(n.relayed, c)| == |OfConn(b.relayed, c)| + 1
    && OfConn(n.relayed, c)[..|OfConn(b.relayed, c)|] == OfConn(b.relayed, c)
    && (var d := OfConn(n.relayed, c)[|OfConn(b.relayed, c)|];
        d.conn == c && d.account == u && d.from == from && d.to == to && d.body == body && d.sent == sent)
  }

  lemma Hands(env: Env, b: State, s: State, u: string, from: string, to: seq<string>, body: string,
              behave: nat -> Milter.Behaviour, sent: Milter.Mail, gaps: nat -> seq<Event>, i: nat, c: nat)
    requires Open(b, s, c, u, from, to) && Holding(s, c, body)
    requires AllWelcome(env, s, [DataSend(c, behave, FilteredAs(b.current, sent))], gaps, i, c)
    requires Passing(b.current, Milter.Mail(from, to, body), behave, sent)
    ensures Delivered(b, RunOwn(env, s, [DataSend(c, behave, FilteredAs(b.current, sent))], gaps, i), c, u, from, to,
                      body, sent)
  {
    hide RunOwn, AllWelcome, RunFrom, Next, OfConn, Passing, Through, SignedFor, PolicyFor;
    var f := FilteredAs(b.current, sent);
    OwnFirst(env, s, DataSend(c, behave, f), gaps, i, c);
    var m := RunFrom(env, s, gaps(i));
    PassingGoesThrough(b.current, Milter.Mail(from, to, body), behave, sent);
    var d := Send(c, m.sessions[c], behave, f);
    assert d.Some?;
    RelaysOne(env, m, c, behave, f);
    OfConnAppend(m.relayed, d.value, c);
  }

  lemma RelaysOne(env: Env, s: State, c: nat, behave: nat -> Milter.Behaviour, f: Milter.Filtered)
    requires c in s.sessions && Send(c, s.sessions[c], behave, f).Some?
    ensures Next(env, s, DataSend(c, behave, f)).relayed == s.relayed + [Send(c, s.sessions[c], behave, f).value]
  {
    hide Send, React, Writes, Stub, Append;
  }

  lemma InServiceIsOpen(s: State)
    requires ClientsOk(s) && s.current.limiter.Some?
    ensures s.current.limiter.value.client !in s.closed
  {
    assert s.current.limiter.value.client in ClientOf(s.current);
  }

  lemma NoDimensions(n: nat)
    ensures CountedDims(None, n) == []
  {
  }

  lemma DataGoesThrough(env: Env, b: State, s: State, c: nat, u: string, from: string, to: seq<string>,
                        times: Dimension -> Times, a: Arrival, behave: nat -> Milter.Behaviour, sent: Milter.Mail,
                        gaps: nat -> seq<Event>, i: nat)
    requires WellBuilt(b.current) && ClientsOk(b) && Enabled(b.current, u)
    requires In(b, s, c, u) && Sent(s, c, from, to) && to != []
    requires FromOk(PolicyFor(b.current, u), Written(b.current, u, a))
    requires Passing(b.current, Milter.Mail(from, to, Written(b.current, u, a)), behave, sent)
    requires AllWelcome(env, s, [DataBegin(c)] + (CountEvents(c, CountedDims(b.current.limiter, |to|), times)
                                + ([DataBody(c, a)] + [DataSend(c, behave, FilteredAs(b.current, sent))])), gaps, i, c)
    ensures Delivered(b, RunOwn(env, s, [DataBegin(c)] + (CountEvents(c, CountedDims(b.current.limiter, |to|), times)
                                        + ([DataBody(c, a)] + [DataSend(c, behave, FilteredAs(b.current, sent))])),
                                gaps, i),
                      c, u, from, to, Written(b.current, u, a), sent)
  {
    hide RunOwn, AllWelcome, In, Sent, Open, Owed, Holding, Delivered, Enabled, FromOk, PolicyFor, Written, Passing,
         WellBuilt, CountEvents, CountedDims, ClientsOk, FilteredAs;
    var dims := CountedDims(b.current.limiter, |to|);
    var counts := CountEvents(c, dims, times);
    var e1, e3, e4 := [DataBegin(c)], [DataBody(c, a)], [DataSend(c, behave, FilteredAs(b.current, sent))];
    OwnSplits(env, s, e1, counts + (e3 + e4), gaps, i, c);
    DataBegins(env, b, s, u, from, to, gaps, i, c);
    var s1 := RunOwn(env, s, e1, gaps, i);
    OwnSplits(env, s1, counts, e3 + e4, gaps, i + 1, c);
    if b.current.limiter.Some? {
      InServiceIsOpen(b);
    } else {
      NoDimensions(|to|);
    }
    CountsUp(env, b, s1, u, from, to, dims, times, gaps, i + 1, c);
    var s2 := RunOwn(env, s1, counts, gaps, i + 1);
    OwnSplits(env, s2, e3, e4, gaps, i + 1 + |counts|, c);
    Reads(env, b, s2, u, from, to, a, gaps, i + 1 + |counts|, c);
    Hands(env, b, RunOwn(env, s2, e3, gaps, i + 1 + |counts|), u, from, to, Written(b.current, u, a), behave, sent,
          gaps, i + 2 + |counts|, c);
  }

  // In terms of what is in service.
  lemma EntitledGoesThrough(env: Env, cfg: Config, events: seq<Event>, c: nat, u: string, password: string,
                            from: string, to: seq<string>, times: Dimension -> Times, a: Arrival,
                            behave: nat -> Milter.Behaviour, sent: Milter.Mail, gaps: nat -> seq<Event>)
    requires c !in RunOf(env, cfg, events).sessions && to != []
    requires var snap := RunOf(env, cfg, events).current;
             && Entitled(env, snap, u, password, from, a)
             && Passing(snap, Milter.Mail(from, to, Written(snap, u, a)), behave, sent)
    requires var s := RunOf(env, cfg, events);
             AllWelcome(env, s, Dialogue(s.current, c, u, password, from, to, times, a, behave, sent), gaps, 0, c)
    ensures var s := RunOf(env, cfg, events);
            var talk := Weave(Dialogue(s.current, c, u, password, from, to, times, a, behave, sent), gaps, 0);
            Delivered(s, RunOf(env, cfg, events + talk), c, u, from, to, Written(s.current, u, a), sent)
  {
    hide RunFrom, RunOwn, AllWelcome, In, Sent, Delivered, Enabled, Allows, FromOk, PolicyFor, Written, Passing,
         WellBuilt, Greeting, Rcpts, CountEvents, CountedDims, ClientsOk, SessionsOk, RelayedOk, Start, Weave,
         FilteredAs;
    RunKeeps(env, cfg, events);
    var s := RunOf(env, cfg, events);
    var own := Dialogue(s.current, c, u, password, from, to, times, a, behave, sent);
    RunAppend(env, Start(env, cfg), events, Weave(own, gaps, 0));
    WeaveRuns(env, s, own, gaps, 0);
    var greeting, rcpts := Greeting(c, u, password, from), Rcpts(c, to);
    var data := [DataBegin(c)] + (CountEvents(c, CountedDims(s.current.limiter, |to|), times)
                                + ([DataBody(c, a)] + [DataSend(c, behave, FilteredAs(s.current, sent))]));
    OwnSplits(env, s, greeting, rcpts + data, gaps, 0, c);
    Greets(env, s, c, u, password, from, gaps, 0);
    var s1 := RunOwn(env, s, greeting, gaps, 0);
    OwnSplits(env, s1, rcpts, data, gaps, |greeting|, c);
    Addresses(env, s, s1, u, from, to, gaps, |greeting|, c);
    DataGoesThrough(env, s, RunOwn(env, s1, rcpts, gaps, |greeting|), c, u, from, to, times, a, behave, sent, gaps,
                    |greeting| + |rcpts|);
  }

  /** The checks are not stricter than stated. From every state a run can reach,
      on a connection that has not been used: an enabled account that shows its
      password, uses an allowed sender and From header, finds a slot and room in
      its quotas and whose message the filters pass has exactly that message
      handed over, to any recipients, whatever other sessions, other replicas and
      failing reloads do between its steps. */
  lemma AuthorizedGoesThrough(env: Env, cfg: Config, events: seq<Event>, c: nat, k: nat, u: string, password: string,
                              from: string, to: seq<string>, times: Dimension -> Times, a: Arrival,
                              behave: nat -> Milter.Behaviour, sent: Milter.Mail, gaps: nat -> seq<Event>)
    requires c !in RunOf(env, cfg, events).sessions && to != []
    requires var snap := RunOf(env, cfg, events).current;
             && MaySend(env, snap.config, k, u, password, from, a)
             && Passing(snap, Milter.Mail(from, to, Written(snap, u, a)), behave, sent)
    requires var s := RunOf(env, cfg, events);
             AllWelcome(env, s, Dialogue(s.current, c, u, password, from, to, times, a, behave, sent), gaps, 0, c)
    ensures var s := RunOf(env, cfg, events);
            var talk := Weave(Dialogue(s.current, c, u, password, from, to, times, a, behave, sent), gaps, 0);
            Delivered(s, RunOf(env, cfg, events + talk), c, u, from, to, Written(s.current, u, a), sent)
  {
    hide RunFrom, AllWelcome, Delivered, Entitled, MaySend, Passing, Weave, Dialogue, Written, Start, FirstNamed,
         SessionsOk, RelayedOk, ClientsOk, WellBuilt;
    RunKeeps(env, cfg, events);
    CurrentServes(env, cfg, events, u);
    assert FirstNamed(env.cost, RunOf(env, cfg, events).current.config.accounts, u, k) by {
      MaySendNames(env, RunOf(env, cfg, events).current.config, k, u, password, from, a);
    }
    MaySendIsEntitled(env, RunOf(env, cfg, events).current, k, u, password, from, a);
    EntitledGoesThrough(env, cfg, events, c, u, password, from, to, times, a, behave, sent, gaps);
  }

  lemma MaySendNames(env: Env, cfg: Config, k: nat, u: string, password: string, from: string, a: Arrival)
    requires MaySend(env, cfg, k, u, password, from, a)
    ensures FirstNamed(env.cost, cfg.accounts, u, k)
  {
    hide FirstNamed, Allows, CheckFrom, Compile, ReceivedHeader;
  }

  // ---------- From the owner's grants to the wire ----------

  /** The grant applies to the namespace: it has no selector, or a valid one whose
      requirements the namespace's labels meet. */
  ghost predicate Selects(o: Render.Origin, g: Access.Grant, namespace: string) {
    g.selector.None? ||
    (g.selector.value.Selector?
     && forall r | r in g.selector.value.requirements :: Access.Meets(r, Access.LabelsOf(o.cluster, namespace)))
  }

  /** The account served as `username` is one of the cluster's that qualifies for
      this gateway, and a grant that applies to its namespace has an entry
      allowing the address. */
  ghost predicate GrantAllows(o: Render.Origin, snap: Snapshot, username: string, address: string) {
    username in snap.accounts &&
    exists a, g, e | a in o.list && g in o.gw.grants && e in g.senders ::
      && Access.Qualifies(a, o.gw, o.cluster, o.ns) && Access.CarriedOver(a, snap.accounts[username], o.gw, o.cluster)
      && Selects(o, g, a.namespace) && Allows(Compile([e]), address)
  }

  ghost predicate GrantSigns(o: Render.Origin, snap: Snapshot, username: string, domain: string) {
    username in snap.accounts &&
    exists a, g, e | a in o.list && g in o.gw.grants && e in g.senders ::
      && Access.Qualifies(a, o.gw, o.cluster, o.ns) && Access.CarriedOver(a, snap.accounts[username], o.gw, o.cluster)
      && Selects(o, g, a.namespace) && CanSign(Compile([e]), domain)
  }

  /** The account served as `username` is one of the cluster's that qualifies for
      this gateway and is exempt from the From check. */
  ghost predicate Exempted(o: Render.Origin, snap: Snapshot, username: string) {
    username in snap.accounts &&
    exists a | a in o.list ::
      && Access.Qualifies(a, o.gw, o.cluster, o.ns) && Access.CarriedOver(a, snap.accounts[username], o.gw, o.cluster)
      && a.enforceHeaderFrom == Some(false)
  }

  // An account that is not served has no rights.
  lemma NothingIsGranted(snap: Snapshot, u: string, x: string)
    requires WellBuilt(snap) && u !in snap.accounts
    ensures !Allows(PolicyFor(snap, u).senders, x) && !CanSign(PolicyFor(snap, u).senders, x)
  {
    hide BareAddress, Normal, PolicyOf, UsernameOk;
  }

  lemma SendingIsGranted(r: Account, o: Render.Origin, a: Access.MailoutAccount, snap: Snapshot, u: string, x: string)
    requires u in snap.accounts && snap.accounts[u] == r && a in o.list
    requires Access.Qualifies(a, o.gw, o.cluster, o.ns) && Access.CarriedOver(a, r, o.gw, o.cluster)
    ensures Allows(Compile(r.allowedSenders), x) ==> GrantAllows(o, snap, u, x)
    ensures CanSign(Compile(r.allowedSenders), x) ==> GrantSigns(o, snap, u, x)
  {
    hide Allows, CanSign, Compile, Access.ServedAs, Access.Applies, Access.Qualifies, Access.CarriedOver, Selects;
    Access.ServedAsIff(a, r, o.gw, o.cluster, o.ns);
    Access.RightsComeFromGrants(a, r, o.gw, o.cluster, o.ns);
    forall g | Access.Applies(g, Access.LabelsOf(o.cluster, a.namespace)) ensures Selects(o, g, a.namespace) {
      AppliesSelects(o, g, a.namespace);
    }
  }

  lemma AppliesSelects(o: Render.Origin, g: Access.Grant, namespace: string)
    ensures Access.Applies(g, Access.LabelsOf(o.cluster, namespace)) <==> Selects(o, g, namespace)
  {
    hide Access.Meets, Access.LabelsOf;
  }

  lemma ServedPolicy(snap: Snapshot, u: string)
    requires WellBuilt(snap) && u in snap.accounts
    ensures PolicyFor(snap, u) == AccountPolicy(Compile(snap.accounts[u].allowedSenders),
                                                snap.accounts[u].skipHeaderFromCheck)
    ensures snap.accounts[u] in snap.config.accounts && snap.accounts[u].username == u
  {
    hide Compile, UsernameOk;
    assert snap.policies[u] == PolicyOf(snap.accounts[u]);
  }

  /** A served account's rights, traced back to the grants. */
  lemma SnapshotIsGranted(snap: Snapshot, o: Render.Origin, u: string, x: string)
    requires WellBuilt(snap) && Render.Rendered(snap.config.accounts, o)
    ensures Allows(PolicyFor(snap, u).senders, x) ==> GrantAllows(o, snap, u, x)
    ensures CanSign(PolicyFor(snap, u).senders, x) ==> GrantSigns(o, snap, u, x)
  {
    hide Allows, CanSign, Compile, WellBuilt, PolicyFor, GrantAllows, GrantSigns, Access.Qualifies, Access.CarriedOver,
         Render.Rendered;
    if u in snap.accounts {
      ServedPolicy(snap, u);
      var r := snap.accounts[u];
      var a := Render.RenderedIsServed(snap.config.accounts, o, r);
      SendingIsGranted(r, o, a, snap, u, x);
    } else {
      NothingIsGranted(snap, u, x);
    }
  }

  /** Every configuration that comes into service was collected, sorted and cut
      from some state of the cluster. */
  ghost predicate AllRendered(origin: Config -> Render.Origin, cfg: Config, events: seq<Event>) {
    Render.Rendered(cfg.accounts, origin(cfg))
    && forall i :: 0 <= i < |events| && events[i].Reload? && events[i].result.Loaded? ==>
         Render.Rendered(events[i].cfg.accounts, origin(events[i].cfg))
  }

  lemma {:induction false} CurrentIsRendered(env: Env, origin: Config -> Render.Origin, cfg: Config, events: seq<Event>)
    requires AllRendered(origin, cfg, events)
    ensures var c := RunOf(env, cfg, events).current.config; Render.Rendered(c.accounts, origin(c))
  {
    hide Render.Rendered, React, BuildSnapshot, Writes, Stub, Deliveries;
    if events == [] {
      ConfigOf(env, cfg, None, 0);
    } else {
      var n := |events| - 1;
      CurrentIsRendered(env, origin, cfg, events[..n]);
      var s := RunOf(env, cfg, events[..n]);
      CurrentAfter(env, s, events[n]);
      if events[n].Reload? {
        ConfigOf(env, events[n].cfg, Some(s.current), s.clients);
      }
    }
  }

  lemma CurrentAfter(env: Env, s: State, e: Event)
    ensures React(env, s, e).current == if e.Reload? && e.result.Loaded?
                                        then BuildSnapshot(env, e.cfg, Some(s.current), s.clients) else s.current
  {
    hide BuildSnapshot, After, Enters, Dial, ClientOf;
  }

  lemma ExemptionIsListed(snap: Snapshot, o: Render.Origin, u: string)
    requires WellBuilt(snap) && Render.Rendered(snap.config.accounts, o)
    requires u in snap.accounts && snap.accounts[u].skipHeaderFromCheck
    ensures Exempted(o, snap, u)
  {
    hide WellBuilt, Render.Rendered, Access.Qualifies;
    ServedPolicy(snap, u);
    var a := Render.RenderedIsServed(snap.config.accounts, o, snap.accounts[u]);
  }

  /** End to end: whatever configurations the operator renders and however the
      relay is driven, the envelope sender of a relayed message was allowed by an
      entry of a grant of the gateway's owner, selected for the namespace of the
      account it was served for, and the owner admits that namespace. So was its
      one From header, unless that account is exempt, and the domain it was
      signed for. */
  lemma OwnerDecides(env: Env, origin: Config -> Render.Origin, cfg: Config, events: seq<Event>, i: nat)
    requires AllRendered(origin, cfg, events)
    requires i < |RunOf(env, cfg, events).relayed|
    ensures var s := RunOf(env, cfg, events);
            var d := s.relayed[i];
            && d.mailedAt < d.begunAt < |s.history|
            && GrantAllows(origin(s.history[d.mailedAt].config), s.history[d.mailedAt], d.account, d.from)
            && (var data := s.history[d.begunAt];
                var o := origin(data.config);
                && (Exempted(o, data, d.account)
                    || exists k :: Message.OnlyOne(Message.Parse(d.body).headers, "From", k)
                                   && GrantAllows(o, data, d.account, Message.Parse(d.body).headers[k].value))
                && (d.signedFor.Some? ==> GrantSigns(o, data, d.account, d.signedFor.value)))
  {
    RunKeeps(env, cfg, events);
    hide RunFrom, LoginOk, Allows, JudgeFrom, Tallied, CanSign, SessionsOk, ClientsOk, PolicyFor, Render.Rendered,
         GrantAllows, GrantSigns, WellBuilt, CheckFrom, FilteredOk, Exempted, SignedFor, Message.OnlyOne;
    var s := RunOf(env, cfg, events);
    var d := s.relayed[i];
    var mail, data := s.history[d.mailedAt], s.history[d.begunAt];
    HistoryRendered(env, origin, cfg, events, d.mailedAt);
    HistoryRendered(env, origin, cfg, events, d.begunAt);
    SnapshotIsGranted(mail, origin(mail.config), d.account, d.from);
    var policy := PolicyFor(data, d.account);
    ServedPolicy(data, d.account);
    if policy.skipHeaderFromCheck {
      ExemptionIsListed(data, origin(data.config), d.account);
    } else {
      var k := FromIsAllowed(d.body, policy.senders);
      SnapshotIsGranted(data, origin(data.config), d.account, Message.Parse(d.body).headers[k].value);
    }
    if d.signedFor.Some? {
      SignedForIff(data.config.keys, policy.senders, d.sent.from, d.sent.body, d.signedFor.value);
      SnapshotIsGranted(data, origin(data.config), d.account, d.signedFor.value);
    }
  }

  lemma FromIsAllowed(x: string, p: SenderPolicy) returns (k: nat)
    requires CheckFrom(x, p).None?
    ensures k < |Message.Parse(x).headers|
    ensures Message.OnlyOne(Message.Parse(x).headers, "From", k) && Allows(p, Message.Parse(x).headers[k].value)
  {
    FromAcceptedIff(x, p);
    hide Message.Parse, Message.HeaderBlock, Allows, CheckFrom;
    k :| Message.OnlyOne(Message.Parse(x).headers, "From", k) && Allows(p, Message.Parse(x).headers[k].value);
  }

  lemma HistoryRendered(env: Env, origin: Config -> Render.Origin, cfg: Config, events: seq<Event>, t: nat)
    requires AllRendered(origin, cfg, events) && t < |RunOf(env, cfg, events).history|
    ensures var c := RunOf(env, cfg, events).history[t].config; Render.Rendered(c.accounts, origin(c))
  {
    hide Render.Rendered, RunFrom;
    HistoryLength(env, cfg, events);
    HistoryIsService(env, cfg, events, t);
    CurrentIsRendered(env, origin, cfg, events[..t]);
  }
}
