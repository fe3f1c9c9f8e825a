/** The relay's objects driven together: one server, its sessions and the quota
    stores it reaches, through any sequence of what can happen to them. They end
    where the machine's runs end, so what is promised of every run is promised of
    the objects. Models internal/gateway/server.go.
 */
module System {
  import opened Text
  import opened Accounts
  import opened Session
  import S = Server
  import Guarantees
  import Spool
  import Milter
  import Policy
  import Quota

  /** What happens to the relay. A body comes with the faults its buffering
      meets, and a message meets the filters as they behave; which event of the
      machine that amounts to is found out by running. */
  datatype Stimulus =
    | Direct(event: S.Event)
    | Submit(conn: nat, arrival: S.Arrival, threshold: int, fault: Spool.Fault, faults: seq<Spool.Fault>)
    | Forward(conn: nat, behave: nat -> Milter.Behaviour)

  predicate Indirect(e: S.Event) {
    e.DataBody? || e.DataDrop? || e.DataSend?
  }

  /** The events a stimulus amounts to, in the state it finds: one, or none for an
      event that only running can tell. */
  ghost predicate Amounts(s: S.State, x: Stimulus, events: seq<S.Event>) {
    match x
    case Direct(e) => events == if Indirect(e) then [] else [e]
    case Submit(c, a, _, fault, faults) =>
      && (events == [S.DataBody(c, a)] || events == [S.DataDrop(c)])
      && (fault.Healthy? && Milter.AllHealthy(faults) ==> events == [S.DataBody(c, a)])
    case Forward(c, behave) =>
      && |events| == 1 && events[0].DataSend? && events[0].conn == c && events[0].behave == behave
      && (c in s.sessions && s.sessions[c].phase.Checked? ==>
            S.Through(s.sessions[c].snap, S.Held(s.sessions[c]), behave, events[0].filtered))
  }

  // Events that touch one session and nothing else.
  predicate Simple(e: S.Event) {
    e.AuthBegin? || e.AuthEnd? || e.Mail? || e.Rcpt? || e.Rset? || e.DataBegin?
  }

  // What an increment brings to its store.
  function Charged(t: S.Session, closed: multiset<nat>, clock: nat, at: nat, fate: Quota.Fate): seq<Quota.Command> {
    if S.Reaches(t, closed, fate) then [S.Charge(t, clock, at)] else []
  }

  // ---------- What a step of the machine leaves ----------

  /** What one session's step leaves of the machine's state is its next state. */
  lemma NextOfSession(env: S.Env, s: S.State, e: S.Event, n: S.State)
    requires e.OfSession() && S.Enters(env, s, e)
    requires var (k, cmds) := S.Writes(env, s, e);
             n == s.(sessions := s.sessions[e.conn := S.After(env, s, e)], logs := S.Append(s.logs, k, cmds),
                     tickets := S.Stub(env, s, e), relayed := s.relayed + S.Deliveries(s, e),
                     history := s.history + [s.current])
    ensures n == S.Next(env, s, e)
  {
    hide S.After, S.Writes, S.Stub, S.Deliveries, S.Append, S.Enters;
  }

  // An event that enters nowhere.
  lemma NextOutside(env: S.Env, s: S.State, e: S.Event)
    requires e.OfSession() && !S.Enters(env, s, e)
    ensures S.Next(env, s, e) == s.(history := s.history + [s.current])
  {
    hide S.After, S.Verifiers, S.Slots;
    assert s.relayed + [] == s.relayed;
  }

  lemma NextOfOthers(env: S.Env, s: S.State, k: nat, cmds: seq<Quota.Command>)
    ensures S.Next(env, s, S.Others(k, cmds))
            == s.(logs := S.Append(s.logs, k, cmds), history := s.history + [s.current])
  {
    hide S.Append;
    assert s.relayed + [] == s.relayed;
  }

  // A reload looks at the server's fields alone.
  lemma NextOfReload(env: S.Env, s: S.State, b: S.State, cfg: S.Config, result: S.ReloadResult)
    requires b == s.(sessions := b.sessions, history := b.history, logs := b.logs, tickets := b.tickets,
                     relayed := b.relayed)
    ensures var r := S.DoReload(env, b, cfg, result);
            S.Next(env, s, S.Reload(cfg, result))
              == r.(sessions := s.sessions, history := s.history + [s.current], logs := s.logs, tickets := s.tickets,
                    relayed := s.relayed)
  {
    hide S.BuildSnapshot, S.Dial, S.ClientOf;
    assert s.relayed + [] == s.relayed;
  }

  lemma OneEvent(env: S.Env, s: S.State, e: S.Event)
    ensures S.RunFrom(env, s, [e]) == S.Next(env, s, e)
  {
    hide S.Next;
    assert [e][..0] == [];
  }

  // How a step changes the number of checks running.
  lemma VerifiersAfter(s: S.State, n: S.State, c: nat, t: S.Session)
    requires n.sessions == s.sessions[c := t]
    ensures t.phase.Verifying? ==> S.Verifiers(n) == S.Verifiers(s) + {c}
    ensures !t.phase.Verifying? ==> S.Verifiers(n) == S.Verifiers(s) - {c}
  {
  }

  lemma SameVerifiers(s: S.State, n: S.State)
    requires n.sessions == s.sessions
    ensures S.Verifiers(n) == S.Verifiers(s)
  {
  }

  lemma CountAfter(s: S.State, n: S.State, c: nat, t: S.Session)
    requires n.sessions == s.sessions[c := t]
    ensures |S.Verifiers(n)| == |S.Verifiers(s)| - (if c in S.Verifiers(s) then 1 else 0)
            + (if t.phase.Verifying? then 1 else 0)
  {
    VerifiersAfter(s, n, c, t);
    hide S.Verifiers;
  }

  lemma InVerifiers(s: S.State, c: nat)
    ensures c in S.Verifiers(s) <==> c in s.sessions && s.sessions[c].phase.Verifying?
  {
  }

  // Who is waiting for a password check after a step.
  lemma WaitingAfter(env: S.Env, t: S.Session, current: S.Snapshot, now: nat, e: S.Event)
    requires Simple(e)
    ensures var after := AfterSimple(env, t, current, now, e).phase.Verifying?;
            if e.AuthBegin? then after <==> t.phase.Verifying? || S.MayVerify(t)
            else if e.AuthEnd? then !after else after <==> t.phase.Verifying?
  {
    hide Policy.Allows, S.PolicyFor, S.CountedDims, S.Authenticate;
  }

  lemma WaitingInData(t: S.Session, closed: multiset<nat>, log: seq<Quota.Command>, clock: nat, at: nat,
                      fate: Quota.Fate, a: S.Arrival)
    ensures S.DoIncr(t, closed, log, clock, at, fate).phase.Verifying? <==> t.phase.Verifying?
    ensures S.DoExpire(t).phase.Verifying? <==> t.phase.Verifying?
    ensures S.DoBody(t, a).phase.Verifying? <==> t.phase.Verifying?
    ensures S.DoDrop(t).phase.Verifying? <==> t.phase.Verifying?
    ensures S.DoSend(t).phase.Verifying? <==> t.phase.Verifying?
  {
    hide S.Charge, Quota.Run, Quota.Answer, S.Written, S.FromOk, S.PolicyFor;
  }

  // Steps that hand nothing over and note nothing.
  lemma Unrecorded(env: S.Env, s: S.State, e: S.Event)
    requires e.OfSession() && !e.DataSend? && !e.DataIncr?
    ensures S.Deliveries(s, e) == [] && S.Stub(env, s, e) == s.tickets && s.relayed + [] == s.relayed
    ensures !e.DataExpire? ==> S.Writes(env, s, e) == (0, []) && S.Append(s.logs, 0, []) == s.logs
  {
  }

  function AfterSimple(env: S.Env, t: S.Session, current: S.Snapshot, now: nat, e: S.Event): S.Session
    requires Simple(e)
  {
    match e
    case AuthBegin(_, u, p) => S.BeginAuth(t, u, p, now)
    case AuthEnd(_) => S.EndAuth(env, t, now)
    case Mail(_, from) => S.DoMail(t, current, now, from)
    case Rcpt(_, to) => S.DoRcpt(t, to)
    case Rset(_) => S.DoReset(t)
    case DataBegin(_) => S.BeginData(t, current, now)
  }

  lemma AfterIsSimple(env: S.Env, s: S.State, e: S.Event)
    requires Simple(e) && e.conn in s.sessions
    ensures S.After(env, s, e) == AfterSimple(env, s.sessions[e.conn], s.current, |s.history|, e)
  {
    hide S.BeginAuth, S.EndAuth, S.DoMail, S.DoRcpt, S.DoReset, S.BeginData;
  }

  method Touch(conn: Connection, env: S.Env, current: S.Snapshot, ghost now: nat, e: S.Event)
    requires Simple(e)
    modifies conn
    ensures conn.View() == AfterSimple(env, old(conn.View()), current, now, e)
  {
    hide S.BeginAuth, S.EndAuth, S.DoMail, S.DoRcpt, S.DoReset, S.BeginData;
    match e {
      case AuthBegin(_, u, p) => conn.BeginAuth(u, p, now);
      case AuthEnd(_) => conn.EndAuth(env, now);
      case Mail(_, from) => var ok := conn.Mail(current, from, now);
      case Rcpt(_, to) => conn.Rcpt(to);
      case Rset(_) => conn.Reset();
      case DataBegin(_) => conn.BeginData(current, now);
    }
  }

  lemma SimpleCounts(env: S.Env, s: S.State, e: S.Event)
    requires Simple(e) && e.conn in s.sessions && S.Enters(env, s, e)
    ensures var t := s.sessions[e.conn];
            |S.Verifiers(S.Next(env, s, e))|
            == |S.Verifiers(s)| + (if e.AuthBegin? && S.MayVerify(t) then 1 else 0)
               - (if e.AuthEnd? && t.phase.Verifying? then 1 else 0)
  {
    hide S.Enters, S.Verifiers, AfterSimple, S.After, S.Next;
    var t := s.sessions[e.conn];
    WaitingAfter(env, t, s.current, |s.history|, e);
    AfterIsSimple(env, s, e);
    InVerifiers(s, e.conn);
    Guarantees.EnteredSession(env, s, e);
    CountAfter(s, S.Next(env, s, e), e.conn, S.After(env, s, e));
  }

  // The machine's increment, in the session's own terms.
  lemma IncrIs(env: S.Env, s: S.State, c: nat, k: nat, clock: nat, at: nat, fate: Quota.Fate)
    requires c in s.sessions
    requires var l := s.sessions[c].snap.limiter; k == if l.Some? then env.server(l.value.limit.store) else 0
    ensures var e, t := S.DataIncr(c, clock, at, fate), s.sessions[c];
            && S.Enters(env, s, e) && S.Deliveries(s, e) == [] && s.relayed + [] == s.relayed
            && S.After(env, s, e) == S.DoIncr(t, s.closed, S.LogOf(s.logs, k), clock, at, fate)
            && (var (j, cmds) := S.Writes(env, s, e);
                S.Append(s.logs, j, cmds) == S.Append(s.logs, k, Charged(t, s.closed, clock, at, fate)))
  {
    hide S.LogOf, S.Charge, Quota.Run, Quota.Answer;
  }

  lemma ExpireIs(env: S.Env, s: S.State, c: nat, k: nat, at: nat)
    requires c in s.sessions
    requires var l := s.sessions[c].snap.limiter; k == if l.Some? then env.server(l.value.limit.store) else 0
    ensures var e, t := S.DataExpire(c, at), s.sessions[c];
            && S.Enters(env, s, e) && S.After(env, s, e) == S.DoExpire(t)
            && (var (j, cmds) := S.Writes(env, s, e);
                S.Append(s.logs, j, cmds) == S.Append(s.logs, k, if S.Owing(t) then [S.Expiry(t, at)] else []))
  {
    hide S.LogOf, S.Expiry, S.DoExpire;
  }

  // Steps that start and end no password check.
  lemma SameCount(env: S.Env, s: S.State, e: S.Event)
    requires e.Reload? || e.Others? || (e.Connect? && e.conn !in s.sessions)
             || ((e.DataIncr? || e.DataExpire?) && e.conn in s.sessions)
    ensures |S.Verifiers(S.Next(env, s, e))| == |S.Verifiers(s)|
  {
    hide S.Verifiers, S.DoIncr, S.DoExpire, S.Next;
    if e.Reload? || e.Others? {
      SessionsKept(env, s, e);
      SameVerifiers(s, S.Next(env, s, e));
    } else {
      Guarantees.EnteredSession(env, s, e);
      InVerifiers(s, e.conn);
      CountAfter(s, S.Next(env, s, e), e.conn, S.After(env, s, e));
      if e.DataIncr? {
        var t := s.sessions[e.conn];
        WaitingInData(t, s.closed, S.LogFor(env, s.logs, t), e.clock, e.at, e.fate, S.NOTHING);
      } else if e.DataExpire? {
        WaitingInData(s.sessions[e.conn], s.closed, [], 0, 0, Quota.Answered, S.NOTHING);
      }
    }
  }

  lemma SessionsKept(env: S.Env, s: S.State, e: S.Event)
    requires e.Reload? || e.Others?
    ensures S.Next(env, s, e).sessions == s.sessions && S.Next(env, s, e).relayed == s.relayed
  {
    hide S.BuildSnapshot, S.Dial, S.ClientOf, S.Append;
    assert s.relayed + [] == s.relayed;
  }

  lemma SendIs(env: S.Env, s: S.State, c: nat, behave: nat -> Milter.Behaviour, filtered: Milter.Filtered)
    requires c in s.sessions
    ensures var t := s.sessions[c];
            var d := S.Send(c, t, behave, filtered);
            S.Next(env, s, S.DataSend(c, behave, filtered))
            == s.(sessions := s.sessions[c := S.DoSend(t)], relayed := s.relayed + (if d.Some? then [d.value] else []),
                  history := s.history + [s.current])
  {
    hide S.Next, S.DoSend, S.Send, S.React;
    S.AfterSend(env, s, c, behave, filtered);
    var n := s.(sessions := s.sessions[c := S.DoSend(s.sessions[c])],
                relayed := s.relayed + S.Deliveries(s, S.DataSend(c, behave, filtered)),
                history := s.history + [s.current]);
    NextOfSession(env, s, S.DataSend(c, behave, filtered), n);
  }

  // A body's arrival, as a step of the machine.
  lemma TakeIs(env: S.Env, s: S.State, c: nat, a: S.Arrival, stored: bool)
    requires c in s.sessions
    ensures var t := s.sessions[c];
            S.Next(env, s, if stored then S.DataBody(c, a) else S.DataDrop(c))
            == s.(sessions := s.sessions[c := if stored then S.DoBody(t, a) else S.DoDrop(t)],
                  history := s.history + [s.current])
  {
    hide S.Next, S.DoBody, S.DoDrop, S.Append, S.Deliveries, S.Stub, S.Writes;
    var e := if stored then S.DataBody(c, a) else S.DataDrop(c);
    Unrecorded(env, s, e);
    var n := s.(sessions := s.sessions[c := S.After(env, s, e)], history := s.history + [s.current]);
    NextOfSession(env, s, e, n);
  }

  // Neither starts nor ends a password check.
  lemma DataCounts(s: S.State, n: S.State, c: nat, a: S.Arrival, stored: bool)
    requires c in s.sessions
    requires var t := s.sessions[c];
             n.sessions == s.sessions[c := if stored then S.DoBody(t, a) else S.DoDrop(t)]
             || n.sessions == s.sessions[c := S.DoSend(t)]
    ensures |S.Verifiers(n)| == |S.Verifiers(s)|
  {
    hide S.Verifiers, S.DoSend, S.DoBody, S.DoDrop;
    InVerifiers(s, c);
    CountAfter(s, n, c, n.sessions[c]);
    WaitingInData(s.sessions[c], multiset{}, [], 0, 0, Quota.Answered, a);
  }

  lemma HeldStays(env: S.Env, s: S.State, e: S.Event, c: nat)
    requires !Indirect(e) && c in S.Next(env, s, e).sessions && S.Next(env, s, e).sessions[c].phase.Checked?
    ensures c in s.sessions && s.sessions[c] == S.Next(env, s, e).sessions[c]
  {
    hide S.Next, S.After, S.Enters;
    if !e.OfSession() || e.conn != c || !S.Enters(env, s, e) {
      Guarantees.OtherSessionStays(env, s, e, c);
    } else {
      Guarantees.EnteredSession(env, s, e);
      HeldIsLeft(env, s, e);
    }
  }

  // No other step makes a held message, or touches one.
  lemma HeldIsLeft(env: S.Env, s: S.State, e: S.Event)
    requires e.OfSession() && !Indirect(e) && S.Enters(env, s, e) && S.After(env, s, e).phase.Checked?
    ensures e.conn in s.sessions && S.After(env, s, e) == s.sessions[e.conn]
  {
    hide Policy.Allows, S.PolicyFor, S.CountedDims, S.Authenticate, S.Charge, Quota.Run, Quota.Answer, S.Enabled,
         S.Verifiers, S.Slots;
  }

  // A body that is held was counted, and nothing was held before.
  lemma BodyChecks(t: S.Session, a: S.Arrival, stored: bool)
    ensures var n := if stored then S.DoBody(t, a) else S.DoDrop(t);
            n.phase.Checked? ==> if S.Counted(t) then n.account.Some? else n == t
  {
    hide S.Written, S.FromOk, S.PolicyFor;
  }

  lemma SentIsReady(t: S.Session)
    ensures !S.DoSend(t).phase.Checked?
  {
  }

  lemma SendsNothing(t: S.Session, c: nat, behave: nat -> Milter.Behaviour)
    ensures S.Send(c, t, behave, Milter.Stopped).None? && (!t.phase.Checked? ==> S.DoSend(t) == t)
  {
  }

  lemma OneSessionMoved(a: map<nat, S.Session>, b: map<nat, S.Session>, c: nat)
    requires a.Keys == b.Keys && c in b && forall d | d in b && d != c :: b[d] == a[d]
    ensures b == a[c := b[c]]
  {
  }

  lemma OneLogGrew(a: S.Logs, b: S.Logs, k: nat, was: seq<Quota.Command>, cmds: seq<Quota.Command>)
    requires (k in a <==> was != []) && (k in a ==> a[k] == was)
    requires (k in b <==> was + cmds != []) && (k in b ==> b[k] == was + cmds)
    requires forall j | j != k :: (j in a <==> j in b) && (j in a ==> b[j] == a[j])
    ensures b == S.Append(a, k, cmds)
  {
    if cmds == [] {
      assert was + cmds == was;
    } else {
      assert (was + cmds)[|was|] == cmds[0];
    }
    var n := S.Append(a, k, cmds);
    assert forall j :: j in b <==> j in n;
    assert forall j | j in b :: b[j] == n[j];
  }

  /** The messages the sessions hold are among `texts`. */
  predicate Stocked(texts: map<nat, string>, sessions: map<nat, S.Session>) {
    forall c | c in sessions && sessions[c].phase.Checked? ::
      c in texts && sessions[c].account.Some? && texts[c] == sessions[c].phase.body
  }

  /** Every message on the shelf is in a spool of its own. */
  ghost predicate Shelved(held: map<nat, Spool.Spool>, shelf: set<object>)
    reads shelf
  {
    && (forall c | c in held :: held[c] in shelf && held[c].Repr() <= shelf && held[c].Valid())
    && (forall c, d | c in held && d in held && c != d :: held[c].Repr() !! held[d].Repr())
  }

  ghost function Texts(held: map<nat, Spool.Spool>, shelf: set<object>): map<nat, string>
    reads shelf
    requires Shelved(held, shelf)
  {
    map c | c in held :: held[c].Contents()
  }

  lemma ShelfGrows(held: map<nat, Spool.Spool>, shelf: set<object>, c: nat, body: Spool.Spool)
    requires Shelved(held, shelf) && body.Valid() && body.Repr() !! shelf
    ensures var after, wider := held[c := body], shelf + body.Repr();
            Shelved(after, wider) && Texts(after, wider) == Texts(held, shelf)[c := body.Contents()]
  {
    hide Spool.Spool.Valid, Spool.Spool.Contents;
  }

  lemma ShelfShrinks(held: map<nat, Spool.Spool>, shelf: set<object>, c: nat)
    requires Shelved(held, shelf) && c in held
    ensures var after, narrower := held - {c}, shelf - held[c].Repr();
            Shelved(after, narrower) && Texts(after, narrower) == Texts(held, shelf) - {c}
  {
    hide Spool.Spool.Valid, Spool.Spool.Contents;
  }

  // A held message is none of other sessions' business.
  lemma StockKept(texts: map<nat, string>, a: map<nat, S.Session>, b: map<nat, S.Session>)
    requires Stocked(texts, a) && forall c | c in b && b[c].phase.Checked? :: c in a && a[c] == b[c]
    ensures Stocked(texts, b)
  {
  }

  lemma StockGrows(texts: map<nat, string>, a: map<nat, S.Session>, b: map<nat, S.Session>, c: nat, text: string)
    requires Stocked(texts, a) && c in b && (b[c].phase.Checked? ==> b[c].account.Some? && b[c].phase.body == text)
    requires forall d | d in b && d != c && b[d].phase.Checked? :: d in a && a[d] == b[d]
    ensures Stocked(texts[c := text], b)
  {
  }

  lemma StockShrinks(texts: map<nat, string>, a: map<nat, S.Session>, c: nat, t: S.Session)
    requires Stocked(texts, a) && !t.phase.Checked?
    ensures Stocked(texts - {c}, a[c := t])
  {
  }

  ghost function Views(connections: map<nat, Connection>): map<nat, S.Session>
    reads connections.Values
  {
    map c | c in connections :: connections[c].View()
  }

  // A store no command reached counts as none.
  ghost function LogsOf(stores: map<nat, Quota.QuotaStore>): S.Logs
    reads stores.Values
  {
    map k | k in stores && stores[k].log != [] :: stores[k].log
  }

  lemma FreshStore(stores: map<nat, Quota.QuotaStore>, k: nat, store: Quota.QuotaStore)
    requires k !in stores && store.log == []
    ensures LogsOf(stores[k := store]) == LogsOf(stores)
  {
  }

  class System {
    const env: S.Env
    const relay: Relay
    var connections: map<nat, Connection>
    var stores: map<nat, Quota.QuotaStore>
    var verifying: nat
    var held: map<nat, Spool.Spool>
    var outbox: seq<(Milter.Mail, Option<string>)>
    ghost var history: seq<S.Snapshot>
    ghost var tickets: map<(nat, nat), (nat, nat)>
    ghost var relayed: seq<S.Delivery>
    ghost var Repr: set<object>
    ghost var Shelf: set<object>

    /** Every other object belongs to the system, and no two names share one. */
    ghost predicate Sound()
      reads this`connections, this`stores, this`Repr, Repr
      ensures Sound() ==> this !in Repr && relay in Repr
    {
      && relay in Repr && this !in Repr
      && (forall c | c in connections :: connections[c] in Repr)
      && (forall k | k in stores :: stores[k] in Repr && stores[k].Valid())
      && (forall c, d | c in connections && d in connections && c != d :: connections[c] != connections[d])
      && (forall k, l | k in stores && l in stores && k != l :: stores[k] != stores[l])
    }

    ghost function Sessions(): map<nat, S.Session>
      reads this`connections, this`stores, this`Repr, Repr
      requires Sound()
    {
      Views(connections)
    }

    ghost function Logs(): S.Logs
      reads this`connections, this`stores, this`Repr, Repr
      requires Sound()
    {
      LogsOf(stores)
    }

    ghost function Value(): S.State
      reads this`connections, this`stores, this`Repr, this`history, this`tickets, this`relayed, Repr
      requires Sound()
    {
      S.State(relay.current, relay.clients, relay.dialled, relay.closed, relay.inService, Sessions(), history, Logs(),
              tickets, relayed)
    }

    /** The slots taken are the checks running, and what was sent is on record. */
    ghost predicate Running()
      reads this`connections, this`stores, this`Repr, this`history, this`tickets, this`relayed, this`verifying,
            this`outbox, Repr
      ensures Running() ==> Sound()
    {
      && Sound() && verifying == |S.Verifiers(Value())| && Recorded()
    }

    ghost predicate Recorded()
      reads this`outbox, this`relayed
    {
      |outbox| == |relayed| && forall i :: 0 <= i < |outbox| ==> outbox[i] == (relayed[i].sent, relayed[i].signedFor)
    }

    ghost predicate Valid()
      reads this, Repr, Shelf
      ensures Valid() ==> Sound()
    {
      && Running() && this !in Shelf && Shelf !! Repr && Shelved(held, Shelf)
      && Stocked(Texts(held, Shelf), Value().sessions)
    }

    constructor (env: S.Env, cfg: S.Config)
      ensures Valid() && fresh(Repr) && fresh(Shelf) && this.env == env && Value() == S.Start(env, cfg)
    {
      this.env := env;
      relay := new Relay(env, cfg);
      connections, stores, verifying, held, outbox := map[], map[], 0, map[], [];
      history, tickets, relayed := [], map[], [];
      new;
      Repr, Shelf := {relay}, {};
      assert S.Verifiers(Value()) == {};
    }

    lemma SessionAt(c: nat)
      requires Sound() && c in connections
      ensures c in Sessions() && Sessions()[c] == connections[c].View()
    {
    }

    lemma ConnectionHeld(c: nat)
      requires Sound() && c in connections
      ensures connections[c] in Repr
    {
    }

    // A store is there from its first use.
    method StoreFor(k: nat) returns (store: Quota.QuotaStore)
      requires Sound()
      modifies this`stores, this`Repr
      ensures Sound() && fresh(Repr - old(Repr)) && old(Repr) <= Repr && k in stores && stores[k] == store
      ensures Value() == old(Value()) && store.log == S.LogOf(Logs(), k)
      ensures fresh(store) || store in old(stores.Values)
    {
      hide Quota.QuotaStore.Valid, Connection.View;
      if k !in stores {
        var s := new Quota.QuotaStore();
        FreshStore(stores, k, s);
        stores, Repr := stores[k := s], Repr + {s};
      }
      store := stores[k];
    }

    // A step of session `c` that touches nothing else.
    method OnSimple(c: nat, e: S.Event)
      requires Sound() && c in connections && Simple(e) && e.conn == c
      modifies connections[c]
      ensures Sound() && Logs() == old(Logs())
      ensures Sessions() == old(Sessions())[c := S.After(env, old(Value()), e)]
    {
      hide AfterSimple, S.After, Quota.Run;
      AfterIsSimple(env, Value(), e);
      Touch(connections[c], env, relay.current, |history|, e);
    }

    // One increment of session `c`, on the store it belongs to.
    method IncrOn(c: nat, k: nat, clock: nat, at: nat, fate: Quota.Fate)
      requires Sound() && c in connections && k in stores
      modifies connections[c], stores[k]
      ensures Sound()
      ensures var t := old(connections[c].View());
              && Sessions() == old(Sessions())[c := S.DoIncr(t, relay.closed, old(stores[k].log), clock, at, fate)]
              && Logs() == S.Append(old(Logs()), k, Charged(t, relay.closed, clock, at, fate))
    {
      hide Quota.Run, S.DoIncr, S.Append;
      ghost var cmds := Charged(connections[c].View(), relay.closed, clock, at, fate);
      connections[c].Increment(stores[k], relay.closed, clock, at, fate);
      OneLogGrew(old(Logs()), Logs(), k, old(stores[k].log), cmds);
      OneSessionMoved(old(Sessions()), Sessions(), c);
    }

    // Its expiry.
    method ExpireOn(c: nat, k: nat, at: nat)
      requires Sound() && c in connections && k in stores
      modifies connections[c], stores[k]
      ensures Sound()
      ensures var t := old(connections[c].View());
              && Sessions() == old(Sessions())[c := S.DoExpire(t)]
              && Logs() == S.Append(old(Logs()), k, if S.Owing(t) then [S.Expiry(t, at)] else [])
    {
      hide Quota.Run, S.DoExpire, S.Expiry, S.Owing, S.Append;
      ghost var t := connections[c].View();
      connections[c].Expire(stores[k], at);
      OneLogGrew(old(Logs()), Logs(), k, old(stores[k].log), if S.Owing(t) then [S.Expiry(t, at)] else []);
      OneSessionMoved(old(Sessions()), Sessions(), c);
    }

    // The same, on a store that is there from its first use.
    method IncrFirst(c: nat, k: nat, clock: nat, at: nat, fate: Quota.Fate)
      requires Sound() && c in connections
      modifies this`stores, this`Repr, connections[c], stores.Values
      ensures Sound() && fresh(Repr - old(Repr))
      ensures var t := old(connections[c].View());
              && Sessions() == old(Sessions())[c := S.DoIncr(t, relay.closed, S.LogOf(old(Logs()), k), clock, at, fate)]
              && Logs() == S.Append(old(Logs()), k, Charged(t, relay.closed, clock, at, fate))
    {
      hide S.DoIncr, S.Append, S.LogOf, Charged, Sessions, Logs, Sound;
      var store := StoreFor(k);
      IncrOn(c, k, clock, at, fate);
    }

    // Commands of other replicas.
    method ApplyOn(k: nat, cmds: seq<Quota.Command>)
      requires Sound() && k in stores
      modifies stores[k]
      ensures Sound() && Logs() == S.Append(old(Logs()), k, cmds) && Sessions() == old(Sessions())
    {
      hide Quota.Run, S.Append;
      stores[k].ApplyAll(cmds);
      OneLogGrew(old(Logs()), Logs(), k, old(stores[k].log), cmds);
    }

    method OnConnect(c: nat)
      requires Sound() && c !in connections
      modifies this`connections, this`Repr
      ensures Sound() && fresh(Repr - old(Repr)) && old(Repr) <= Repr
      ensures Logs() == old(Logs()) && Sessions() == old(Sessions())[c := S.NewSession(relay.current, |history|)]
    {
      hide Quota.QuotaStore.Valid, Connection.View, S.NewSession;
      var conn := new Connection(relay.current, |history|);
      connections, Repr := connections[c := conn], Repr + {conn};
    }

    // Nothing happens but the passing of a step.
    ghost method Stutter(e: S.Event)
      requires Running() && e.OfSession() && !S.Enters(env, Value(), e)
      modifies this`history
      ensures Running() && Value() == S.Next(env, old(Value()), e)
    {
      hide S.Next, S.Enters, S.Verifiers, Quota.Run;
      NextOutside(env, Value(), e);
      history := history + [relay.current];
      SameVerifiers(old(Value()), Value());
    }

    method MoveSimple(c: nat, e: S.Event)
      requires Sound() && c in connections && Simple(e) && e.conn == c && S.Enters(env, Value(), e)
      modifies this`history, connections[c]
      ensures Sound() && Value() == S.Next(env, old(Value()), e) && relayed == old(relayed)
    {
      hide S.Next, S.Enters, S.After, S.Append, S.Deliveries, S.Stub, S.Writes, Sessions, Logs, Sound;
      Unrecorded(env, Value(), e);
      OnSimple(c, e);
      history := history + [relay.current];
      NextOfSession(env, old(Value()), e, Value());
    }

    method StepSimple(c: nat, e: S.Event)
      requires Running() && c in connections && Simple(e) && e.conn == c && S.Enters(env, Value(), e)
      modifies this`verifying, this`history, connections[c]
      ensures Running() && Value() == S.Next(env, old(Value()), e)
    {
      hide S.Next, S.Enters, S.Verifiers, S.MayVerify, Sessions, Logs, Sound;
      SessionAt(c);
      SimpleCounts(env, Value(), e);
      var may := connections[c].MayVerify();
      var waits := connections[c].place.Waiting?;
      assert waits <==> Value().sessions[c].phase.Verifying?;
      MoveSimple(c, e);
      if e.AuthBegin? && may {
        verifying := verifying + 1;
      } else if e.AuthEnd? && waits {
        verifying := verifying - 1;
      }
    }

    // One increment, on its store.
    method MoveIncr(c: nat, clock: nat, at: nat, fate: Quota.Fate)
      requires Sound() && c in connections
      modifies this`stores, this`Repr, this`history, this`tickets, connections[c], stores.Values
      ensures Sound() && fresh(Repr - old(Repr)) && Value() == S.Next(env, old(Value()), S.DataIncr(c, clock, at, fate))
      ensures relayed == old(relayed)
    {
      hide S.Next, S.Enters, S.After, S.Append, S.Deliveries, S.Stub, S.Writes, S.DoIncr, Charged, S.LogOf, Sessions,
           Logs, Sound;
      SessionAt(c);
      ghost var s, e := Value(), S.DataIncr(c, clock, at, fate);
      var k := connections[c].Target(env);
      IncrIs(env, s, c, k, clock, at, fate);
      IncrFirst(c, k, clock, at, fate);
      history, tickets := history + [relay.current], S.Stub(env, s, e);
      NextOfSession(env, s, e, Value());
    }

    method MoveExpire(c: nat, at: nat)
      requires Sound() && c in connections
      modifies this`stores, this`Repr, this`history, connections[c], stores.Values
      ensures Sound() && fresh(Repr - old(Repr)) && Value() == S.Next(env, old(Value()), S.DataExpire(c, at))
      ensures relayed == old(relayed)
    {
      hide S.Next, S.After, S.Append, S.Stub, S.Writes, S.DoExpire, S.Owing, S.Deliveries, Sessions, Logs, Sound;
      SessionAt(c);
      ghost var s, e := Value(), S.DataExpire(c, at);
      var k := connections[c].Target(env);
      var store := StoreFor(k);
      ExpireIs(env, s, c, k, at);
      Unrecorded(env, s, e);
      ExpireOn(c, k, at);
      history := history + [relay.current];
      NextOfSession(env, s, e, Value());
    }

    method StepData(c: nat, e: S.Event)
      requires Running() && c in connections && (e.DataIncr? || e.DataExpire?) && e.conn == c
      modifies this`stores, this`Repr, this`history, this`tickets, connections[c], stores.Values
      ensures Running() && fresh(Repr - old(Repr)) && Value() == S.Next(env, old(Value()), e)
    {
      hide S.Next, S.Verifiers, Sessions, Logs, Sound;
      SessionAt(c);
      SameCount(env, Value(), e);
      match e {
        case DataIncr(_, clock, at, fate) => MoveIncr(c, clock, at, fate);
        case DataExpire(_, at) => MoveExpire(c, at);
      }
    }

    method StepOthers(k: nat, cmds: seq<Quota.Command>)
      requires Running()
      modifies this`stores, this`Repr, this`history, stores.Values
      ensures Running() && fresh(Repr - old(Repr)) && Value() == S.Next(env, old(Value()), S.Others(k, cmds))
    {
      hide S.Next, S.Verifiers, S.Append, Sessions, Logs, Sound;
      SameCount(env, Value(), S.Others(k, cmds));
      NextOfOthers(env, Value(), k, cmds);
      var store := StoreFor(k);
      ApplyOn(k, cmds);
      history := history + [relay.current];
    }

    method StepConnect(c: nat)
      requires Running() && c !in connections
      modifies this`connections, this`Repr, this`history
      ensures Running() && fresh(Repr - old(Repr)) && Value() == S.Next(env, old(Value()), S.Connect(c))
    {
      hide S.Next, S.Verifiers, S.Append, S.Deliveries, S.Stub, S.Writes, Sessions, Logs, Sound, Recorded;
      ghost var s, e := Value(), S.Connect(c);
      Known(c);
      SameCount(env, s, e);
      Unrecorded(env, s, e);
      OnConnect(c);
      history := history + [relay.current];
      NextOfSession(env, s, e, Value());
    }

    // The server alone changes.
    method ReloadOnly(cfg: S.Config, result: S.ReloadResult)
      requires Sound()
      modifies relay
      ensures Sound() && Sessions() == old(Sessions()) && Logs() == old(Logs())
      ensures relay.Value() == S.DoReload(env, old(relay.Value()), cfg, result)
    {
      hide S.DoReload, Quota.Run;
      var ok := relay.Reload(env, cfg, result);
    }

    method StepReload(cfg: S.Config, result: S.ReloadResult)
      requires Running()
      modifies relay, this`history
      ensures Running() && Value() == S.Next(env, old(Value()), S.Reload(cfg, result))
    {
      hide S.Next, S.Verifiers, S.DoReload, Sound, Sessions, Logs;
      SameCount(env, Value(), S.Reload(cfg, result));
      NextOfReload(env, Value(), relay.Value(), cfg, result);
      history := history + [relay.current];
      ReloadOnly(cfg, result);
    }

    // One event, other than those a body or the filters decide.
    method Advance(e: S.Event)
      requires Running() && !Indirect(e)
      modifies this`connections, this`stores, this`verifying, this`history, this`tickets, this`Repr, Repr
      ensures Running() && fresh(Repr - old(Repr)) && Value() == S.Next(env, old(Value()), e)
    {
      hide S.Next, S.Verifiers, Quota.Run, Sessions, Logs;
      if e.Reload? {
        StepReload(e.cfg, e.result);
      } else if e.Others? {
        StepOthers(e.server, e.cmds);
      } else if e.Connect? {
        Known(e.conn);
        if e.conn in connections {
          Stutter(e);
        } else {
          StepConnect(e.conn);
        }
      } else {
        Known(e.conn);
        if e.conn !in connections {
          Stutter(e);
        } else {
          OnSession(e);
        }
      }
    }

    lemma Known(c: nat)
      requires Sound()
      ensures c in Sessions() <==> c in connections
    {
    }

    method OnSession(e: S.Event)
      requires Running() && !Indirect(e) && e.OfSession() && !e.Connect? && e.conn in connections
      modifies this`stores, this`verifying, this`history, this`tickets, this`Repr, connections[e.conn], stores.Values
      ensures Running() && fresh(Repr - old(Repr)) && Value() == S.Next(env, old(Value()), e)
    {
      hide S.Next, S.Verifiers, Sound, Sessions, Logs;
      SessionAt(e.conn);
      if Simple(e) {
        var may := connections[e.conn].MayVerify();
        if e.AuthBegin? && may && verifying >= S.Slots(env) {
          Stutter(e);
        } else {
          StepSimple(e.conn, e);
        }
      } else {
        StepData(e.conn, e);
      }
    }

    /** One event, other than those a body or the filters decide. */
    method Step(e: S.Event)
      requires Valid() && !Indirect(e)
      modifies this, Repr
      ensures Valid() && fresh(Repr - old(Repr)) && Shelf == old(Shelf) && Value() == S.Next(env, old(Value()), e)
    {
      hide S.Next, S.Verifiers, Sound, Sessions, Logs, Shelved, Texts, Stocked, Recorded;
      ghost var s := Value();
      Advance(e);
      forall c | c in Value().sessions && Value().sessions[c].phase.Checked?
        ensures c in s.sessions && s.sessions[c] == Value().sessions[c]
      {
        HeldStays(env, s, e, c);
      }
      StockKept(Texts(held, Shelf), s.sessions, Value().sessions);
    }

    // The session's part of a body's arrival.
    method TakeOn(x: Stimulus) returns (body: Spool.Spool?, ghost stored: bool)
      requires Sound() && x.Submit? && x.conn in connections
      modifies connections[x.conn]
      ensures Sound() && Logs() == old(Logs())
      ensures var t := old(connections[x.conn].View());
              && Sessions() == old(Sessions())[x.conn := if stored then S.DoBody(t, x.arrival) else S.DoDrop(t)]
              && (body != null <==> S.Counted(t) && Sessions()[x.conn].phase.Checked?)
              && (body != null ==> body.Contents() == Sessions()[x.conn].phase.body)
      ensures body != null ==> fresh(body) && fresh(body.Repr()) && body.Valid()
      ensures x.fault.Healthy? && Milter.AllHealthy(x.faults) ==> stored
    {
      hide Quota.Run, S.DoBody, S.DoDrop, Milter.AllHealthy;
      body, stored := connections[x.conn].Take(x.threshold, x.arrival, x.fault, x.faults);
      OneSessionMoved(old(Sessions()), Sessions(), x.conn);
    }

    // A new spool goes on the shelf.
    method Shelve(c: nat, body: Spool.Spool)
      requires Shelved(held, Shelf) && this !in Shelf && body.Valid() && body in body.Repr()
               && body.Repr() !! Shelf + {this}
      modifies this`held, this`Shelf
      ensures Shelved(held, Shelf) && Shelf == old(Shelf) + body.Repr()
      ensures Texts(held, Shelf) == old(Texts(held, Shelf))[c := body.Contents()]
    {
      hide Shelved, Texts, Spool.Spool.Valid, Spool.Spool.Contents, Spool.Spool.Repr;
      ShelfGrows(held, Shelf, c, body);
      held, Shelf := held[c := body], Shelf + body.Repr();
    }

    // A body arrives, as a step of the machine; what is to be kept comes back.
    method Arrive(x: Stimulus) returns (body: Spool.Spool?, ghost e: S.Event)
      requires Running() && x.Submit? && x.conn in connections
      modifies this`history, connections[x.conn]
      ensures Running() && Value() == S.Next(env, old(Value()), e) && Amounts(old(Value()), x, [e])
      ensures body != null ==> fresh(body) && fresh(body.Repr()) && body.Valid()
      ensures var a, b := old(Value()).sessions, Value().sessions;
              && x.conn in b && (forall d | d in b && d != x.conn :: d in a && a[d] == b[d])
              && (if body != null
                  then b[x.conn].phase.Checked? && b[x.conn].account.Some? && body.Contents() == b[x.conn].phase.body
                  else b[x.conn].phase.Checked? ==> x.conn in a && a[x.conn] == b[x.conn])
    {
      hide S.Next, S.Verifiers, S.DoBody, S.DoDrop, Sound, Sessions, Logs, Recorded, Milter.AllHealthy,
           Connection.View, Spool.Spool.Valid, Spool.Spool.Contents;
      var c := x.conn;
      ghost var s := Value();
      SessionAt(c);
      ghost var stored;
      body, stored := TakeOn(x);
      e := if stored then S.DataBody(c, x.arrival) else S.DataDrop(c);
      TakeIs(env, s, c, x.arrival, stored);
      BodyChecks(s.sessions[c], x.arrival, stored);
      history := history + [relay.current];
      DataCounts(s, Value(), c, x.arrival, stored);
    }

    /** A body arrives. */
    method Take(x: Stimulus) returns (ghost e: S.Event)
      requires Valid() && x.Submit? && x.conn in connections
      modifies this`history, this`held, this`Shelf, connections[x.conn]
      ensures Valid() && fresh(Shelf - old(Shelf)) && Repr == old(Repr) && Value() == S.Next(env, old(Value()), e)
      ensures Amounts(old(Value()), x, [e])
    {
      hide S.Next, Running, Value, Sound, Sessions, Logs, Shelved, Texts, Stocked, Amounts, Spool.Spool.Valid,
           Spool.Spool.Contents;
      ghost var texts, before := Texts(held, Shelf), Value().sessions;
      ConnectionHeld(x.conn);
      var body;
      body, e := Arrive(x);
      if body != null {
        StockGrows(texts, before, Value().sessions, x.conn, body.Contents());
        Shelve(x.conn, body);
      } else {
        StockKept(texts, before, Value().sessions);
      }
    }

    // The session's part of a hand-over.
    method HandOn(c: nat, body: Spool.Spool, behave: nat -> Milter.Behaviour)
      returns (ghost filtered: Milter.Filtered, sent: Option<(Milter.Mail, Option<string>)>)
      requires Sound() && c in connections && connections[c].place.Holding? && connections[c].account.Some?
      requires body.Valid() && body.Contents() == connections[c].text && body.Repr() !! Repr
      modifies connections[c], body.Repr()
      ensures Sound() && Logs() == old(Logs())
      ensures var t := old(connections[c].View());
              && Sessions() == old(Sessions())[c := S.DoSend(t)] && t.phase.Checked?
              && S.Through(t.snap, S.Held(t), behave, filtered)
              && (var d := S.Send(c, t, behave, filtered);
                  (sent.Some? <==> d.Some?) && (sent.Some? ==> sent.value == (d.value.sent, d.value.signedFor)))
    {
      hide Quota.Run, S.DoSend, S.Send, S.Through;
      filtered, sent := connections[c].Hand(body, behave);
      OneSessionMoved(old(Sessions()), Sessions(), c);
    }

    // A spool is taken off the shelf.
    method Unshelve(c: nat) returns (body: Spool.Spool)
      requires Shelved(held, Shelf) && this !in Shelf && c in Texts(held, Shelf)
      modifies this`held, this`Shelf
      ensures body.Valid() && body.Contents() == old(Texts(held, Shelf))[c] && body.Repr() <= old(Shelf)
      ensures Shelved(held, Shelf) && Shelf == old(Shelf) - body.Repr()
              && Texts(held, Shelf) == old(Texts(held, Shelf)) - {c}
    {
      hide Shelved, Texts, Spool.Spool.Valid, Spool.Spool.Contents, Spool.Spool.Repr;
      OnShelf(c);
      ShelfShrinks(held, Shelf, c);
      body := held[c];
      held, Shelf := held - {c}, Shelf - body.Repr();
    }

    lemma OnShelf(c: nat)
      requires Shelved(held, Shelf) && c in Texts(held, Shelf)
      ensures c in held && held[c] in Shelf && held[c].Valid() && held[c].Contents() == Texts(held, Shelf)[c]
              && held[c].Repr() <= Shelf
    {
    }

    // The message leaves, and is recorded if it was handed over.
    method Deliver(c: nat, body: Spool.Spool, behave: nat -> Milter.Behaviour) returns (ghost e: S.Event)
      requires Running() && c in connections && connections[c].place.Holding? && connections[c].account.Some?
      requires body.Valid() && body.Contents() == connections[c].text && body.Repr() !! Repr && this !in body.Repr()
      modifies this`history, this`relayed, this`outbox, connections[c], body.Repr()
      ensures Running() && Value() == S.Next(env, old(Value()), e)
      ensures c in old(Value()).sessions
      ensures Value().sessions == old(Value()).sessions[c := S.DoSend(old(Value()).sessions[c])]
      ensures var t := old(connections[c].View());
              && e.DataSend? && e.conn == c && e.behave == behave && t.phase.Checked?
              && S.Through(t.snap, S.Held(t), behave, e.filtered)
    {
      hide S.Next, S.Verifiers, S.DoSend, S.Send, S.Through, Sound, Sessions, Logs;
      ghost var s := Value();
      SessionAt(c);
      ghost var filtered;
      var sent;
      filtered, sent := HandOn(c, body, behave);
      e := S.DataSend(c, behave, filtered);
      SendIs(env, s, c, behave, filtered);
      history := history + [relay.current];
      if sent.Some? {
        outbox := outbox + [sent.value];
        relayed := relayed + [S.Send(c, s.sessions[c], behave, filtered).value];
      } else {
        assert relayed + [] == relayed;
      }
      DataCounts(s, Value(), c, S.NOTHING, true);
    }

    /** A held message is handed over. */
    method Forwards(x: Stimulus) returns (ghost e: S.Event)
      requires Valid() && x.Forward? && x.conn in connections && connections[x.conn].place.Holding?
      modifies this`history, this`held, this`Shelf, this`relayed, this`outbox, connections[x.conn], Shelf
      ensures Valid() && Shelf <= old(Shelf) && Repr == old(Repr) && Value() == S.Next(env, old(Value()), e)
      ensures Amounts(old(Value()), x, [e])
    {
      hide S.Next, Running, S.DoSend, S.Through, Sound, Sessions, Logs, Shelved, Texts, Spool.Spool.Valid,
           Spool.Spool.Contents;
      var c := x.conn;
      ghost var s, texts := Value(), Texts(held, Shelf);
      SessionAt(c);
      ConnectionHeld(c);
      var body := Unshelve(c);
      e := Deliver(c, body, x.behave);
      SentIsReady(s.sessions[c]);
      StockShrinks(texts, s.sessions, c, S.DoSend(s.sessions[c]));
    }

    // A stimulus for no session, or for one that holds nothing.
    ghost method Nothing(x: Stimulus) returns (e: S.Event)
      requires Valid() && !x.Direct? && (x.conn !in connections || (x.Forward? && !connections[x.conn].place.Holding?))
      modifies this`history
      ensures Valid() && Value() == S.Next(env, old(Value()), e) && Amounts(old(Value()), x, [e])
    {
      hide S.Next, S.Verifiers, Sound, Sessions, Logs, Shelved, Texts, Stocked, S.Through, Milter.AllHealthy;
      ghost var s := Value();
      Known(x.conn);
      e := if x.Submit? then S.DataBody(x.conn, x.arrival) else S.DataSend(x.conn, x.behave, Milter.Stopped);
      if x.conn in connections {
        SessionAt(x.conn);
        SendIs(env, s, x.conn, x.behave, Milter.Stopped);
        SendsNothing(s.sessions[x.conn], x.conn, x.behave);
        assert s.sessions[x.conn := s.sessions[x.conn]] == s.sessions;
        assert s.relayed + [] == s.relayed;
      } else {
        NextOutside(env, s, e);
      }
      history := history + [relay.current];
      SameVerifiers(s, Value());
    }

    /** Whatever happens, what it amounts to is a run of the machine. */
    method Handle(x: Stimulus) returns (ghost events: seq<S.Event>)
      requires Valid()
      modifies this, Repr, Shelf
      ensures Valid() && fresh(Repr - old(Repr)) && fresh(Shelf - old(Shelf))
      ensures Value() == S.RunFrom(env, old(Value()), events) && Amounts(old(Value()), x, events)
    {
      hide S.Next, S.RunFrom, S.Verifiers, Sound, Sessions, Logs, Shelved, Texts, Stocked, S.Through, Milter.AllHealthy;
      ghost var s, e := Value(), S.Others(0, []);
      events := [];
      Guarantees.RunNothing(env, s);
      if x.Direct? {
        if !Indirect(x.event) {
          events := [x.event];
          OneEvent(env, s, x.event);
          Step(x.event);
        }
      } else {
        if x.conn !in connections || (x.Forward? && !connections[x.conn].place.Holding?) {
          e := Nothing(x);
        } else {
          ConnectionHeld(x.conn);
          if x.Submit? {
            e := Take(x);
          } else {
            e := Forwards(x);
          }
        }
        events := [e];
        OneEvent(env, s, e);
      }
    }
  }

  // ---------- Whole runs ----------

  /** A run of the machine that some stimuli amount to, one after the other. */
  ghost predicate Performs(env: S.Env, cfg: S.Config, stimuli: seq<Stimulus>, parts: seq<seq<S.Event>>) {
    |parts| == |stimuli|
    && forall i :: 0 <= i < |stimuli| ==>
         Amounts(S.RunFrom(env, S.Start(env, cfg), Joined(parts[..i])), stimuli[i], parts[i])
  }

  function Joined(parts: seq<seq<S.Event>>): seq<S.Event> {
    if parts == [] then [] else Joined(parts[..|parts| - 1]) + parts[|parts| - 1]
  }

  lemma PerformsNext(env: S.Env, cfg: S.Config, stimuli: seq<Stimulus>, parts: seq<seq<S.Event>>, x: Stimulus,
                     events: seq<S.Event>)
    requires Performs(env, cfg, stimuli, parts) && Amounts(S.RunFrom(env, S.Start(env, cfg), Joined(parts)), x, events)
    ensures Performs(env, cfg, stimuli + [x], parts + [events])
    ensures Joined(parts + [events]) == Joined(parts) + events
  {
    hide S.RunFrom, S.Start, Amounts;
    var all, every := stimuli + [x], parts + [events];
    assert every[..|parts|] == parts;
    forall i | 0 <= i < |all| ensures Amounts(S.RunFrom(env, S.Start(env, cfg), Joined(every[..i])), all[i], every[i]) {
      if i < |parts| {
        assert every[..i] == parts[..i];
      }
    }
  }

  /** Whatever happens to the objects, they end where the machine's run ends: all
      that is promised of every run holds of them. */
  method Drive(env: S.Env, cfg: S.Config, stimuli: seq<Stimulus>) returns (sys: System, ghost parts: seq<seq<S.Event>>)
    ensures fresh(sys) && sys.Valid() && sys.env == env
    ensures Performs(env, cfg, stimuli, parts) && sys.Value() == S.RunFrom(env, S.Start(env, cfg), Joined(parts))
  {
    hide S.RunFrom, S.Next, S.Start, Amounts, System.Valid, System.Value;
    sys := new System(env, cfg);
    parts := [];
    Guarantees.RunNothing(env, S.Start(env, cfg));
    for i := 0 to |stimuli|
      invariant fresh(sys) && fresh(sys.Repr) && fresh(sys.Shelf) && sys.Valid() && sys.env == env
      invariant Performs(env, cfg, stimuli[..i], parts)
                && sys.Value() == S.RunFrom(env, S.Start(env, cfg), Joined(parts))
    {
      var events := sys.Handle(stimuli[i]);
      Guarantees.RunAppend(env, S.Start(env, cfg), Joined(parts), events);
      PerformsNext(env, cfg, stimuli[..i], parts, stimuli[i], events);
      assert stimuli[..i + 1] == stimuli[..i] + [stimuli[i]];
      parts := parts + [events];
    }
    assert stimuli[..|stimuli|] == stimuli;
  }
}
