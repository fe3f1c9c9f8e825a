/** What a relayed message is made of: the envelope and the bytes its own
    connection sent, in every run. Models `Mail`, `Rcpt`, `Data` and `Reset` of
    internal/gateway/server.go.
 */
module Submission {
  import opened Text
  import opened Accounts
  import opened Inbound
  import opened Server
  import opened Guarantees
  import Policy
  import Quota
  import Milter

  /** The recipients connection `c` names, in order. */
  function Addressed(events: seq<Event>, c: nat): seq<string> {
    if events == [] then []
    else
      var n := |events| - 1;
      Addressed(events[..n], c) + if events[n].Rcpt? && events[n].conn == c then [events[n].to] else []
  }

  /** At step `at` connection `c` opened the envelope `from`; the recipients it
      named from then until step `until` are `to`, and it took nothing back. */
  ghost predicate Envelope(events: seq<Event>, c: nat, from: string, to: seq<string>, at: nat, until: nat) {
    && at < until <= |events| && events[at] == Mail(c, from)
    && to == Addressed(events[at + 1..until], c)
    && forall t :: at < t < until ==> events[t] != Rset(c)
  }

  /** After step `at` connection `c` sent the bytes that `body` is, under the trace
      header of its account. */
  ghost predicate Content(events: seq<Event>, c: nat, host: string, u: string, at: nat, body: string) {
    exists t, a :: at < t < |events| && events[t] == DataBody(c, a)
                   && body == ReceivedHeader(a.ehlo, a.remote, host, u, a.date) + a.content
  }

  // ---------- Steps keep what was sent ----------

  lemma AddressedNext(events: seq<Event>, e: Event, at: nat, c: nat)
    requires at < |events|
    ensures var all := events + [e];
            Addressed(all[at + 1..], c)
            == Addressed(events[at + 1..], c) + if e.Rcpt? && e.conn == c then [e.to] else []
  {
    var all := events + [e];
    var tail := all[at + 1..];
    assert tail[..|tail| - 1] == events[at + 1..];
  }

  // An envelope that is closed, or that the step leaves alone.
  lemma EnvelopeGrows(events: seq<Event>, e: Event, c: nat, from: string, to: seq<string>, at: nat, until: nat)
    requires Envelope(events, c, from, to, at, until)
    ensures Envelope(events + [e], c, from, to, at, until)
    ensures until == |events| && e != Rset(c) ==>
              Envelope(events + [e], c, from, to + (if e.Rcpt? && e.conn == c then [e.to] else []), at, until + 1)
  {
    hide Addressed;
    var all := events + [e];
    assert all[at + 1..until] == events[at + 1..until];
    if until == |events| && e != Rset(c) {
      AddressedNext(events, e, at, c);
      assert all[at + 1..until + 1] == all[at + 1..] && events[at + 1..until] == events[at + 1..];
    }
  }

  lemma EnvelopeOpens(events: seq<Event>, c: nat, from: string)
    ensures Envelope(events + [Mail(c, from)], c, from, [], |events|, |events| + 1)
  {
    var all := events + [Mail(c, from)];
    assert all[|events| + 1..|events| + 1] == [];
  }

  lemma ContentGrows(events: seq<Event>, e: Event, c: nat, host: string, u: string, at: nat, body: string)
    requires Content(events, c, host, u, at, body)
    ensures Content(events + [e], c, host, u, at, body)
  {
    hide ReceivedHeader;
    var t, a :| at < t < |events| && events[t] == DataBody(c, a)
                && body == ReceivedHeader(a.ehlo, a.remote, host, u, a.date) + a.content;
    assert (events + [e])[t] == DataBody(c, a);
  }

  // ---------- What a session holds ----------

  predicate Busy(p: Phase) {
    p.Counting? || p.Expiring? || p.Checked?
  }

  /** What a session holds is what its connection sent: an envelope that is still
      open, or the one its DATA closed, and then the body. */
  ghost predicate Told(events: seq<Event>, c: nat, s: Session) {
    && (s.mailed ==> s.open && s.account.Some? && !s.phase.Verifying?)
    && (Busy(s.phase) ==> s.mailed)
    && (s.mailed ==> Envelope(events, c, s.from, s.to, s.mailedAt, if Busy(s.phase) then s.phase.at else |events|))
    && (Busy(s.phase) ==> s.phase.at < |events| && events[s.phase.at] == DataBegin(c))
    && (s.phase.Checked? ==>
          && s.account.Some?
          && Content(events, c, s.snap.config.hostname, s.account.value.username, s.phase.at, s.phase.body))
  }

  // The session is as before, and the step took nothing back and named no one.
  lemma ToldStill(events: seq<Event>, e: Event, c: nat, s: Session)
    requires Told(events, c, s) && (s.mailed && !Busy(s.phase) ==> e != Rset(c) && !(e.Rcpt? && e.conn == c))
    ensures Told(events + [e], c, s)
  {
    hide Envelope, Content;
    if s.mailed {
      EnvelopeGrows(events, e, c, s.from, s.to, s.mailedAt, if Busy(s.phase) then s.phase.at else |events|);
      assert s.to + [] == s.to;
    }
    if s.phase.Checked? {
      ContentGrows(events, e, c, s.snap.config.hostname, s.account.value.username, s.phase.at, s.phase.body);
    }
  }

  // It forgot what it held, or has nothing yet.
  lemma ToldNothing(events: seq<Event>, c: nat, s: Session)
    requires !s.mailed && !Busy(s.phase)
    ensures Told(events, c, s)
  {
  }

  lemma ToldMail(events: seq<Event>, c: nat, s: Session, current: Snapshot, from: string)
    requires Told(events, c, s)
    ensures Told(events + [Mail(c, from)], c, DoMail(s, current, |events|, from))
  {
    hide Envelope, Content, Policy.Allows, PolicyFor;
    var e, t := Mail(c, from), DoMail(s, current, |events|, from);
    ToldStill(events, e, c, s);
    EnvelopeOpens(events, c, from);
  }

  lemma ToldRcpt(events: seq<Event>, c: nat, s: Session, to: string)
    requires Told(events, c, s)
    ensures Told(events + [Rcpt(c, to)], c, DoRcpt(s, to))
  {
    hide Envelope, Content;
    var e := Rcpt(c, to);
    if s.mailed && !Busy(s.phase) {
      EnvelopeGrows(events, e, c, s.from, s.to, s.mailedAt, |events|);
    } else {
      ToldStill(events, e, c, s);
    }
  }

  lemma ToldReset(events: seq<Event>, c: nat, s: Session)
    requires Told(events, c, s)
    ensures Told(events + [Rset(c)], c, DoReset(s))
  {
    hide Envelope, Content;
    if s.mailed && !Busy(s.phase) {
      ToldNothing(events + [Rset(c)], c, DoReset(s));
    } else {
      ToldStill(events, Rset(c), c, s);
    }
  }

  lemma ToldBegin(events: seq<Event>, c: nat, s: Session, current: Snapshot)
    requires Told(events, c, s)
    ensures Told(events + [DataBegin(c)], c, BeginData(s, current, |events|))
  {
    hide Envelope, Content, CountedDims;
    var e := DataBegin(c);
    ToldStill(events, e, c, s);
    if s.mailed && !Busy(s.phase) {
      EnvelopeGrows(events, e, c, s.from, s.to, s.mailedAt, |events|);
    }
  }

  lemma ToldBody(events: seq<Event>, c: nat, s: Session, a: Arrival)
    requires Told(events, c, s)
    ensures Told(events + [DataBody(c, a)], c, DoBody(s, a))
  {
    hide Envelope, FromOk, PolicyFor, ReceivedHeader;
    var e := DataBody(c, a);
    ToldStill(events, e, c, s);
    if Counted(s) {
      assert (events + [e])[|events|] == DataBody(c, a);
    }
  }

  // A step that counts, or ends DATA.
  lemma ToldData(events: seq<Event>, e: Event, c: nat, s: Session, closed: multiset<nat>, log: seq<Quota.Command>)
    requires Told(events, c, s) && e.OfSession() && e.conn == c
    ensures e.DataIncr? ==> Told(events + [e], c, DoIncr(s, closed, log, e.clock, e.at, e.fate))
    ensures e.DataExpire? ==> Told(events + [e], c, DoExpire(s))
    ensures e.DataDrop? ==> Told(events + [e], c, DoDrop(s))
    ensures e.DataSend? ==> Told(events + [e], c, DoSend(s))
  {
    hide Envelope, Content, Quota.Run, Quota.Answer, Charge;
    if e.DataIncr? || e.DataExpire? || e.DataDrop? || e.DataSend? {
      ToldStill(events, e, c, s);
    }
  }

  lemma ToldAuth(events: seq<Event>, e: Event, c: nat, env: Env, s: Session)
    requires Told(events, c, s) && e.OfSession() && e.conn == c
    ensures e.AuthBegin? ==> Told(events + [e], c, BeginAuth(s, e.username, e.password, |events|))
    ensures e.AuthEnd? ==> Told(events + [e], c, EndAuth(env, s, |events|))
  {
    hide Envelope, Content, Authenticate;
    if e.AuthBegin? || e.AuthEnd? {
      ToldStill(events, e, c, s);
    }
  }

  lemma ToldAfter(env: Env, s: State, events: seq<Event>, e: Event)
    requires e.OfSession() && !e.Connect? && e.conn in s.sessions && |s.history| == |events|
    requires Told(events, e.conn, s.sessions[e.conn])
    ensures Told(events + [e], e.conn, After(env, s, e))
  {
    hide Told, DoMail, DoRcpt, DoReset, BeginData, DoIncr, DoExpire, DoBody, DoDrop, DoSend, BeginAuth, EndAuth;
    var t := s.sessions[e.conn];
    match e
    case AuthBegin(c, _, _) => ToldAuth(events, e, c, env, t);
    case AuthEnd(c) => ToldAuth(events, e, c, env, t);
    case Mail(c, from) => ToldMail(events, c, t, s.current, from);
    case Rcpt(c, to) => ToldRcpt(events, c, t, to);
    case Rset(c) => ToldReset(events, c, t);
    case DataBegin(c) => ToldBegin(events, c, t, s.current);
    case DataBody(c, a) => ToldBody(events, c, t, a);
    case DataIncr(c, _, _, _) => ToldData(events, e, c, t, s.closed, LogFor(env, s.logs, t));
    case DataExpire(c, _) => ToldData(events, e, c, t, s.closed, []);
    case DataDrop(c) => ToldData(events, e, c, t, s.closed, []);
    case DataSend(c, _, _) => ToldData(events, e, c, t, s.closed, []);
  }

  lemma Unheard(env: Env, s: State, e: Event, c: nat)
    requires c in s.sessions && (!e.OfSession() || e.conn != c || !Enters(env, s, e))
    ensures e != Rset(c) && !(e.Rcpt? && e.conn == c)
  {
    hide Verifiers, Slots, MayVerify;
  }

  /** Every session of every run. */
  lemma {:induction false} EverySessionIsTold(env: Env, cfg: Config, events: seq<Event>, c: nat)
    requires c in RunOf(env, cfg, events).sessions
    ensures Told(events, c, RunOf(env, cfg, events).sessions[c])
  {
    hide Told, Next, Start, Enters, After;
    if events == [] {
      NoSessionsYet(env, cfg);
    } else {
      var n := |events| - 1;
      var before, e := events[..n], events[n];
      assert events == before + [e];
      var s := RunOf(env, cfg, before);
      HistoryLength(env, cfg, before);
      if !e.OfSession() || e.conn != c || !Enters(env, s, e) {
        OtherSessionStays(env, s, e, c);
        EverySessionIsTold(env, cfg, before, c);
        Unheard(env, s, e, c);
        ToldStill(before, e, c, s.sessions[c]);
      } else {
        EnteredSession(env, s, e);
        if e.Connect? {
          ConnectEnters(env, s, c);
          ToldNothing(events, c, NewSession(s.current, |s.history|));
        } else {
          EntersSession(env, s, e);
          EverySessionIsTold(env, cfg, before, c);
          ToldAfter(env, s, before, e);
        }
      }
    }
  }

  // ---------- Every message ----------

  /** What is said of a relayed message. */
  ghost predicate Submitted(events: seq<Event>, d: Delivery, host: string) {
    && d.mailedAt < d.begunAt < |events| && events[d.begunAt] == DataBegin(d.conn)
    && Envelope(events, d.conn, d.from, d.to, d.mailedAt, d.begunAt)
    && Content(events, d.conn, host, d.account, d.begunAt, d.body)
  }

  lemma SubmittedGrows(events: seq<Event>, e: Event, d: Delivery, host: string)
    requires Submitted(events, d, host)
    ensures Submitted(events + [e], d, host)
  {
    hide Envelope, Content;
    EnvelopeGrows(events, e, d.conn, d.from, d.to, d.mailedAt, d.begunAt);
    ContentGrows(events, e, d.conn, host, d.account, d.begunAt, d.body);
  }

  lemma SentIsTold(events: seq<Event>, c: nat, s: Session, behave: nat -> Milter.Behaviour, f: Milter.Filtered)
    requires Told(events, c, s) && Send(c, s, behave, f).Some?
    ensures Submitted(events, Send(c, s, behave, f).value, s.snap.config.hostname)
  {
    hide Content, Through, SignedFor, Addressed;
  }

  lemma BegunIsService(env: Env, cfg: Config, events: seq<Event>, c: nat)
    requires c in RunOf(env, cfg, events).sessions && RunOf(env, cfg, events).sessions[c].phase.Checked?
    ensures var s := RunOf(env, cfg, events).sessions[c];
            s.phase.at < |events| && s.snap == RunOf(env, cfg, events[..s.phase.at]).current
  {
    RunKeeps(env, cfg, events);
    hide RunFrom, RelayedOk, ClientsOk, WellBuilt, AccountOk, MailedOk, Tallied, FromOk;
    var s := RunOf(env, cfg, events);
    assert SessionOk(env, s.history, s.logs, s.sessions[c]);
    HistoryLength(env, cfg, events);
    HistoryIsService(env, cfg, events, s.sessions[c].phase.at);
  }

  /** Every message handed to the upstream is one its own connection submitted: a
      MAIL with that sender, since then the recipients it has and no RSET, the
      DATA that began, and the bytes that came after it under the trace header
      of its account and of the gateway that served it. */
  lemma {:induction false} EveryMessageIsSubmitted(env: Env, cfg: Config, events: seq<Event>, i: nat)
    requires i < |RunOf(env, cfg, events).relayed|
    ensures var d := RunOf(env, cfg, events).relayed[i];
            && d.begunAt < |events|
            && Submitted(events, d, RunOf(env, cfg, events[..d.begunAt]).current.config.hostname)
  {
    hide Submitted, Start, React, Writes, Stub, Told, Send;
    if events == [] {
      NoSessionsYet(env, cfg);
    } else {
      var n := |events| - 1;
      var before, e := events[..n], events[n];
      assert events == before + [e];
      var s := RunOf(env, cfg, before);
      var d := RunOf(env, cfg, events).relayed[i];
      if i < |s.relayed| {
        EveryMessageIsSubmitted(env, cfg, before, i);
      } else {
        EverySessionIsTold(env, cfg, before, e.conn);
        SentIsChecked(e.conn, s.sessions[e.conn], e.behave, e.filtered);
        BegunIsService(env, cfg, before, e.conn);
        SentIsTold(before, e.conn, s.sessions[e.conn], e.behave, e.filtered);
      }
      assert before[..d.begunAt] == events[..d.begunAt];
      SubmittedGrows(before, e, d, RunOf(env, cfg, events[..d.begunAt]).current.config.hostname);
    }
  }

  lemma SentIsChecked(c: nat, s: Session, behave: nat -> Milter.Behaviour, f: Milter.Filtered)
    requires Send(c, s, behave, f).Some?
    ensures s.phase.Checked? && Send(c, s, behave, f).value.begunAt == s.phase.at
  {
    hide Through, SignedFor;
  }
}
