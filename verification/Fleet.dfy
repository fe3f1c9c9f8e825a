/** Any number of replicas that share their quota stores. Each replica is a
    relay; what one writes to a store the others see as commands of others. The
    quotas hold for the messages the fleet relays, not for one replica's.
 */
module Fleet {
  import opened Text
  import opened Accounts
  import opened Server
  import opened Guarantees
  import Quota
  import Policy
  import Inbound

  datatype Step = Step(replica: nat, event: Event)

  function FleetStart(env: Env, cfgs: seq<Config>): seq<State> {
    seq(|cfgs|, i requires 0 <= i < |cfgs| => Start(env, cfgs[i]))
  }

  /** One replica takes a step and every other one sees what it wrote. */
  ghost function FleetNext(env: Env, f: seq<State>, x: Step): seq<State> {
    if x.replica >= |f| then f
    else
      var (k, cmds) := Writes(env, f[x.replica], x.event);
      seq(|f|, i requires 0 <= i < |f| =>
        if i == x.replica then Next(env, f[i], x.event) else Next(env, f[i], Others(k, cmds)))
  }

  ghost function FleetRun(env: Env, cfgs: seq<Config>, steps: seq<Step>): (f: seq<State>)
    ensures |f| == |cfgs|
  {
    if steps == [] then FleetStart(env, cfgs)
    else FleetNext(env, FleetRun(env, cfgs, steps[..|steps| - 1]), steps[|steps| - 1])
  }

  // ---------- Each replica is a relay ----------

  /** The run of one replica within a run of the fleet. */
  ghost function Project(env: Env, cfgs: seq<Config>, steps: seq<Step>, i: nat): seq<Event> {
    if steps == [] then []
    else
      var before, x := steps[..|steps| - 1], steps[|steps| - 1];
      if x.replica >= |cfgs| then Project(env, cfgs, before, i)
      else if x.replica == i then Project(env, cfgs, before, i) + [x.event]
      else
        var (k, cmds) := Writes(env, FleetRun(env, cfgs, before)[x.replica], x.event);
        Project(env, cfgs, before, i) + [Others(k, cmds)]
  }

  lemma RunLast(env: Env, cfg: Config, events: seq<Event>, e: Event)
    ensures RunOf(env, cfg, events + [e]) == Next(env, RunOf(env, cfg, events), e)
  {
    hide Next;
    assert (events + [e])[..|events|] == events;
  }

  /** Whatever is promised of every run of a relay is promised of each replica. */
  lemma {:induction false} ReplicaIsRelay(env: Env, cfgs: seq<Config>, steps: seq<Step>, i: nat)
    requires i < |cfgs|
    ensures FleetRun(env, cfgs, steps)[i] == RunOf(env, cfgs[i], Project(env, cfgs, steps, i))
  {
    hide Next, Writes, Start;
    if steps != [] {
      var before, x := steps[..|steps| - 1], steps[|steps| - 1];
      ReplicaIsRelay(env, cfgs, before, i);
      if x.replica < |cfgs| {
        var (k, cmds) := Writes(env, FleetRun(env, cfgs, before)[x.replica], x.event);
        RunLast(env, cfgs[i], Project(env, cfgs, before, i), if x.replica == i then x.event else Others(k, cmds));
      }
    }
  }

  // ---------- Tickets ----------

  type Tickets = map<(nat, nat), (nat, nat)>

  /** Position `p` of store `k` was written for the DATA connection `c` began at
      step `at`. */
  predicate Noted(tickets: Tickets, k: nat, p: nat, c: nat, at: nat) {
    (k, p) in tickets && tickets[(k, p)] == (c, at)
  }

  predicate Stamped(env: Env, tickets: Tickets, limiter: Option<Limiter>, counts: map<Dimension, nat>, c: nat,
                    at: nat)
  {
    forall d | d in counts :: limiter.Some? && Noted(tickets, env.server(limiter.value.limit.store), counts[d], c, at)
  }

  predicate InData(p: Phase) {
    p.Counting? || p.Expiring? || p.Checked?
  }

  predicate SessionStamped(env: Env, tickets: Tickets, c: nat, s: Session) {
    InData(s.phase) ==>
      && Stamped(env, tickets, s.snap.limiter, s.phase.counts, c, s.phase.at)
      && (s.phase.Expiring? ==>
            && s.snap.limiter.Some?
            && Noted(tickets, env.server(s.snap.limiter.value.limit.store), s.phase.pending, c, s.phase.at))
  }

  predicate DeliveryStamped(env: Env, tickets: Tickets, d: Delivery) {
    Stamped(env, tickets, d.limiter, d.counts, d.conn, d.begunAt)
  }

  predicate SameData(a: Delivery, b: Delivery) {
    a.conn == b.conn && a.begunAt == b.begunAt
  }

  // No message of the connection comes from the DATA in progress.
  predicate NotYet(relayed: seq<Delivery>, c: nat, s: Session) {
    InData(s.phase) ==> forall i :: 0 <= i < |relayed| && relayed[i].conn == c ==> relayed[i].begunAt != s.phase.at
  }

  predicate Bounded(s: State) {
    forall t | t in s.tickets :: t.1 < |LogOf(s.logs, t.0)|
  }

  predicate OncePerData(relayed: seq<Delivery>) {
    forall i, j :: 0 <= i < j < |relayed| ==> !SameData(relayed[i], relayed[j])
  }

  /** Every increment of a message on its way or relayed is noted as made for it,
      and no DATA relays twice. */
  ghost predicate TicketInv(env: Env, s: State) {
    && Bounded(s)
    && (forall c | c in s.sessions ::
          SessionStamped(env, s.tickets, c, s.sessions[c]) && NotYet(s.relayed, c, s.sessions[c]))
    && (forall i :: 0 <= i < |s.relayed| ==> DeliveryStamped(env, s.tickets, s.relayed[i]))
    && OncePerData(s.relayed)
  }

  ghost predicate Grown(a: Tickets, b: Tickets) {
    forall t | t in a :: t in b && b[t] == a[t]
  }

  // A new note is made past the end of every log.
  lemma StubGrows(env: Env, s: State, e: Event)
    requires Bounded(s)
    ensures Grown(s.tickets, Stub(env, s, e))
    ensures var (k, cmds) := Writes(env, s, e); Bounded(s.(logs := Append(s.logs, k, cmds), tickets := Stub(env, s, e)))
    ensures var (k, cmds) := Writes(env, s, e);
            forall t | t in Stub(env, s, e) && t !in s.tickets :: t.0 == k && t.1 >= |LogOf(s.logs, k)|
  {
    hide Append, LogOf, Charge, Expiry, Reaches, Owing;
    var (k, cmds) := Writes(env, s, e);
    forall j ensures |LogOf(Append(s.logs, k, cmds), j)| == |LogOf(s.logs, j)| + if j == k then |cmds| else 0 {
      LogOfAppend(s.logs, k, cmds, j);
    }
  }

  lemma StampedGrows(env: Env, a: Tickets, b: Tickets, limiter: Option<Limiter>, counts: map<Dimension, nat>, c: nat,
                     at: nat)
    requires Grown(a, b) && Stamped(env, a, limiter, counts, c, at)
    ensures Stamped(env, b, limiter, counts, c, at)
  {
  }

  lemma SessionStampedGrows(env: Env, a: Tickets, b: Tickets, c: nat, s: Session)
    requires Grown(a, b) && SessionStamped(env, a, c, s)
    ensures SessionStamped(env, b, c, s)
  {
    hide Stamped;
    if InData(s.phase) {
      StampedGrows(env, a, b, s.snap.limiter, s.phase.counts, c, s.phase.at);
    }
  }

  // A step of DATA, or one that leaves DATA alone.
  lemma PlainStamped(env: Env, tickets: Tickets, c: nat, s: Session, current: Snapshot, now: nat, from: string,
                     a: Arrival)
    requires SessionStamped(env, tickets, c, s)
    ensures SessionStamped(env, tickets, c, DoMail(s, current, now, from))
            && SessionStamped(env, tickets, c, DoRcpt(s, from))
    ensures SessionStamped(env, tickets, c, DoReset(s)) && SessionStamped(env, tickets, c, BeginData(s, current, now))
    ensures SessionStamped(env, tickets, c, DoBody(s, a)) && SessionStamped(env, tickets, c, DoDrop(s))
    ensures SessionStamped(env, tickets, c, DoSend(s)) && SessionStamped(env, tickets, c, DoExpire(s))
  {
    hide Policy.Allows, PolicyFor, CountedDims, FromOk, Written, Enabled;
  }

  lemma AuthStamped(env: Env, tickets: Tickets, c: nat, s: Session, u: string, p: string, now: nat)
    requires SessionStamped(env, tickets, c, s)
    ensures SessionStamped(env, tickets, c, BeginAuth(s, u, p, now))
            && SessionStamped(env, tickets, c, EndAuth(env, s, now))
  {
    hide Authenticate;
  }

  lemma IncrStamped(env: Env, s: State, e: Event)
    requires e.DataIncr? && e.conn in s.sessions && SessionStamped(env, s.tickets, e.conn, s.sessions[e.conn])
             && Bounded(s)
    ensures SessionStamped(env, Stub(env, s, e), e.conn, After(env, s, e))
  {
    hide Stamped, LogOf, Quota.Run, Quota.Answer, Bounded, Charge;
    StubGrows(env, s, e);
    var t := s.sessions[e.conn];
    SessionStampedGrows(env, s.tickets, Stub(env, s, e), e.conn, t);
  }

  lemma AfterStamped(env: Env, s: State, e: Event)
    requires TicketInv(env, s) && e.OfSession() && (e.Connect? || e.conn in s.sessions)
    ensures SessionStamped(env, Stub(env, s, e), e.conn, After(env, s, e))
  {
    hide Stamped, Noted, Bounded, OncePerData, DeliveryStamped, NotYet, DoMail, DoRcpt, DoReset, BeginData, DoIncr,
         DoExpire, DoBody, DoDrop, DoSend, BeginAuth, EndAuth;
    if e.DataIncr? {
      IncrStamped(env, s, e);
    } else if !e.Connect? {
      assert Stub(env, s, e) == s.tickets;
      var t, now := s.sessions[e.conn], |s.history|;
      match e
      case AuthBegin(c, u, p) => AuthStamped(env, s.tickets, c, t, u, p, now);
      case AuthEnd(c) => AuthStamped(env, s.tickets, c, t, [], [], now);
      case Mail(c, from) => PlainStamped(env, s.tickets, c, t, s.current, now, from, NOTHING);
      case Rcpt(c, to) => PlainStamped(env, s.tickets, c, t, s.current, now, to, NOTHING);
      case DataBody(c, a) => PlainStamped(env, s.tickets, c, t, s.current, now, [], a);
      case Rset(c) => PlainStamped(env, s.tickets, c, t, s.current, now, [], NOTHING);
      case DataBegin(c) => PlainStamped(env, s.tickets, c, t, s.current, now, [], NOTHING);
      case DataExpire(c, _) => PlainStamped(env, s.tickets, c, t, s.current, now, [], NOTHING);
      case DataDrop(c) => PlainStamped(env, s.tickets, c, t, s.current, now, [], NOTHING);
      case DataSend(c, _, _) => PlainStamped(env, s.tickets, c, t, s.current, now, [], NOTHING);
    }
  }

  // DATA keeps the step it began at.
  predicate SameStep(b: Session, t: Session, now: nat) {
    InData(t.phase) ==> (InData(b.phase) && t.phase.at == b.phase.at) || t.phase.at == now
  }

  lemma PlainSameStep(s: Session, current: Snapshot, now: nat, from: string, a: Arrival)
    ensures SameStep(s, DoMail(s, current, now, from), now) && SameStep(s, DoRcpt(s, from), now)
    ensures SameStep(s, DoReset(s), now) && SameStep(s, BeginData(s, current, now), now)
    ensures SameStep(s, DoBody(s, a), now) && SameStep(s, DoDrop(s), now)
    ensures SameStep(s, DoSend(s), now) && SameStep(s, DoExpire(s), now)
  {
    hide Policy.Allows, PolicyFor, CountedDims, FromOk, Written, Enabled;
  }

  lemma OtherSameStep(env: Env, s: Session, u: string, p: string, closed: multiset<nat>, log: seq<Quota.Command>,
                      clock: nat, at: nat, fate: Quota.Fate, now: nat)
    ensures SameStep(s, BeginAuth(s, u, p, now), now) && SameStep(s, EndAuth(env, s, now), now)
    ensures SameStep(s, DoIncr(s, closed, log, clock, at, fate), now)
  {
    hide Authenticate, Quota.Run, Quota.Answer, Charge;
  }

  lemma AfterSameStep(env: Env, s: State, e: Event)
    requires e.OfSession() && !e.Connect? && e.conn in s.sessions
    ensures SameStep(s.sessions[e.conn], After(env, s, e), |s.history|)
  {
    hide SameStep, DoMail, DoRcpt, DoReset, BeginData, DoIncr, DoExpire, DoBody, DoDrop, DoSend, BeginAuth, EndAuth;
    var t, now := s.sessions[e.conn], |s.history|;
    match e
    case AuthBegin(_, u, p) => OtherSameStep(env, t, u, p, s.closed, [], 0, 0, Quota.Answered, now);
    case AuthEnd(_) => OtherSameStep(env, t, [], [], s.closed, [], 0, 0, Quota.Answered, now);
    case DataIncr(_, clock, at, fate) =>
      OtherSameStep(env, t, [], [], s.closed, LogFor(env, s.logs, t), clock, at, fate, now);
    case Mail(_, from) => PlainSameStep(t, s.current, now, from, NOTHING);
    case Rcpt(_, to) => PlainSameStep(t, s.current, now, to, NOTHING);
    case DataBody(_, a) => PlainSameStep(t, s.current, now, [], a);
    case Rset(_) => PlainSameStep(t, s.current, now, [], NOTHING);
    case DataBegin(_) => PlainSameStep(t, s.current, now, [], NOTHING);
    case DataExpire(_, _) => PlainSameStep(t, s.current, now, [], NOTHING);
    case DataDrop(_) => PlainSameStep(t, s.current, now, [], NOTHING);
    case DataSend(_, _, _) => PlainSameStep(t, s.current, now, [], NOTHING);
  }

  lemma NotYetAfter(env: Env, s: State, e: Event)
    requires Inv(env, s) && TicketInv(env, s) && e.OfSession() && (e.Connect? || e.conn in s.sessions)
    ensures NotYet(s.relayed, e.conn, After(env, s, e))
  {
    hide After, SessionsOk, WellBuilt, ClientsOk, SessionStamped, DeliveryStamped, Bounded, OncePerData, Tallied,
         FromOk, Policy.Allows, Policy.CanSign, LoginOk, FilteredOk;
    if e.Connect? {
      ConnectIsReady(env, s, e);
    } else {
      AfterSameStep(env, s, e);
      var t := After(env, s, e);
      if InData(t.phase) {
        assert NotYet(s.relayed, e.conn, s.sessions[e.conn]);
        forall i | 0 <= i < |s.relayed| && s.relayed[i].conn == e.conn ensures s.relayed[i].begunAt != t.phase.at {
          assert DeliveryOk(env, s.history, s.logs, s.relayed[i]);
        }
      }
    }
  }

  lemma ConnectIsReady(env: Env, s: State, e: Event)
    requires e.Connect?
    ensures After(env, s, e).phase.Ready?
  {
  }

  lemma SessionsOfNext(env: Env, s: State, e: Event, c: nat)
    requires c in Next(env, s, e).sessions
    ensures if e.OfSession() && e.conn == c && Enters(env, s, e) then Next(env, s, e).sessions[c] == After(env, s, e)
            else c in s.sessions && Next(env, s, e).sessions[c] == s.sessions[c]
  {
    hide After, Writes, Stub, Deliveries, BuildSnapshot, Dial, ClientOf;
  }

  lemma NextFields(env: Env, s: State, e: Event)
    ensures var n, w := Next(env, s, e), Writes(env, s, e);
            && n.logs == Append(s.logs, w.0, w.1) && n.tickets == Stub(env, s, e)
            && n.relayed == s.relayed + Deliveries(s, e)
  {
    hide After, Writes, Stub, Deliveries, BuildSnapshot, Dial, ClientOf, Append, React;
  }

  lemma SessionsStamped(env: Env, s: State, e: Event, c: nat)
    requires TicketInv(env, s) && c in Next(env, s, e).sessions
    ensures SessionStamped(env, Stub(env, s, e), c, Next(env, s, e).sessions[c])
  {
    hide SessionStamped, Next, After, Stub, Writes, Enters, NotYet, DeliveryStamped, OncePerData, Bounded;
    SessionsOfNext(env, s, e, c);
    if e.OfSession() && e.conn == c && Enters(env, s, e) {
      Found(env, s, e);
      AfterStamped(env, s, e);
    } else {
      StubGrows(env, s, e);
      SessionStampedGrows(env, s.tickets, Stub(env, s, e), c, s.sessions[c]);
    }
  }

  lemma Found(env: Env, s: State, e: Event)
    requires e.OfSession() && Enters(env, s, e)
    ensures e.Connect? || e.conn in s.sessions
  {
  }

  // What a hand-over adds.
  lemma DeliveryIs(s: State, e: Event)
    requires Deliveries(s, e) != []
    ensures e.DataSend? && e.conn in s.sessions && s.sessions[e.conn].phase.Checked? && |Deliveries(s, e)| == 1
    ensures var d, t := Deliveries(s, e)[0], s.sessions[e.conn];
            d.conn == e.conn && d.begunAt == t.phase.at && d.limiter == t.snap.limiter && d.counts == t.phase.counts
  {
    hide Inbound.SignedFor, Through;
  }

  lemma NotYetNext(env: Env, s: State, e: Event, c: nat)
    requires Inv(env, s) && TicketInv(env, s) && c in Next(env, s, e).sessions
    ensures NotYet(s.relayed + Deliveries(s, e), c, Next(env, s, e).sessions[c])
  {
    hide Next, After, Enters, SessionStamped, DeliveryStamped, OncePerData, Bounded, Deliveries, Inv;
    SessionsOfNext(env, s, e, c);
    var t := Next(env, s, e).sessions[c];
    if e.OfSession() && e.conn == c && Enters(env, s, e) {
      Found(env, s, e);
      NotYetAfter(env, s, e);
    } else {
      assert NotYet(s.relayed, c, s.sessions[c]);
    }
    if Deliveries(s, e) != [] {
      DeliveryIs(s, e);
      if e.conn == c {
        SentIsReady(env, s, e);
      }
    }
  }

  lemma SentIsReady(env: Env, s: State, e: Event)
    requires e.DataSend? && e.conn in s.sessions && s.sessions[e.conn].phase.Checked?
    ensures Next(env, s, e).sessions[e.conn].phase.Ready?
  {
    hide Writes, Stub, Deliveries, Append;
  }

  lemma RelayedStamped(env: Env, s: State, e: Event, i: nat)
    requires TicketInv(env, s) && i < |s.relayed + Deliveries(s, e)|
    ensures DeliveryStamped(env, Stub(env, s, e), (s.relayed + Deliveries(s, e))[i])
  {
    hide Stamped, Stub, Deliveries, NotYet, OncePerData, Bounded;
    StubGrows(env, s, e);
    if i < |s.relayed| {
      var d := s.relayed[i];
      assert DeliveryStamped(env, s.tickets, d);
      StampedGrows(env, s.tickets, Stub(env, s, e), d.limiter, d.counts, d.conn, d.begunAt);
    } else {
      DeliveryIs(s, e);
      var t := s.sessions[e.conn];
      assert SessionStamped(env, s.tickets, e.conn, t);
      StampedGrows(env, s.tickets, Stub(env, s, e), t.snap.limiter, t.phase.counts, e.conn, t.phase.at);
    }
  }

  lemma OncePerDataNext(env: Env, s: State, e: Event)
    requires TicketInv(env, s)
    ensures OncePerData(s.relayed + Deliveries(s, e))
  {
    hide SessionStamped, DeliveryStamped, Bounded, Deliveries;
    if Deliveries(s, e) != [] {
      DeliveryIs(s, e);
      assert NotYet(s.relayed, e.conn, s.sessions[e.conn]);
    } else {
      assert s.relayed + Deliveries(s, e) == s.relayed;
    }
  }

  lemma TicketsKeep(env: Env, s: State, e: Event)
    requires Inv(env, s) && TicketInv(env, s)
    ensures TicketInv(env, Next(env, s, e))
  {
    hide Inv, Next, Stub, Writes, Deliveries, SessionStamped, NotYet, DeliveryStamped, OncePerData, Append, LogOf;
    NextFields(env, s, e);
    StubGrows(env, s, e);
    OncePerDataNext(env, s, e);
    var n := Next(env, s, e);
    forall c | c in n.sessions
      ensures SessionStamped(env, n.tickets, c, n.sessions[c]) && NotYet(n.relayed, c, n.sessions[c])
    {
      SessionsStamped(env, s, e, c);
      NotYetNext(env, s, e, c);
    }
    forall i | 0 <= i < |n.relayed| ensures DeliveryStamped(env, n.tickets, n.relayed[i]) {
      RelayedStamped(env, s, e, i);
    }
  }

  // ---------- What every run of a fleet keeps ----------

  ghost predicate ReplicaOk(env: Env, s: State) {
    Inv(env, s) && TicketInv(env, s)
  }

  /** The replicas see the same stores, and no position was written by two. */
  ghost predicate FleetInv(env: Env, f: seq<State>) {
    && (forall i :: 0 <= i < |f| ==> ReplicaOk(env, f[i]))
    && (forall i, j :: 0 <= i < |f| && 0 <= j < |f| ==> f[i].logs == f[j].logs)
    && (forall i, j :: 0 <= i < j < |f| ==> f[i].tickets.Keys !! f[j].tickets.Keys)
  }

  lemma StartReplica(env: Env, cfg: Config)
    ensures ReplicaOk(env, Start(env, cfg)) && Start(env, cfg).logs == map[] && Start(env, cfg).tickets == map[]
  {
    hide Inv, BuildSnapshot, Dial, ClientOf;
    StartIsOk(env, cfg);
  }

  lemma NextReplica(env: Env, s: State, e: Event)
    requires ReplicaOk(env, s)
    ensures ReplicaOk(env, Next(env, s, e))
  {
    hide Inv, TicketInv, Next;
    NextKeeps(env, s, e);
    TicketsKeep(env, s, e);
  }

  // What another replica sees of a step.
  lemma SeenByOthers(env: Env, s: State, k: nat, cmds: seq<Quota.Command>)
    ensures var n := Next(env, s, Others(k, cmds)); n.logs == Append(s.logs, k, cmds) && n.tickets == s.tickets
  {
    hide Append;
  }

  // A note made now is past everything noted anywhere.
  lemma NewNotesApart(env: Env, s: State, o: State, e: Event)
    requires Bounded(s) && Bounded(o) && s.logs == o.logs && s.tickets.Keys !! o.tickets.Keys
    ensures Stub(env, s, e).Keys !! o.tickets.Keys
  {
    hide Stub, Writes, LogOf;
    StubGrows(env, s, e);
    forall t | t in Stub(env, s, e) ensures t !in o.tickets {
    }
  }

  lemma FleetKeeps(env: Env, f: seq<State>, x: Step)
    requires FleetInv(env, f)
    ensures FleetInv(env, FleetNext(env, f, x))
  {
    hide Inv, Next, Writes, Stub, Append;
    if x.replica < |f| {
      var n := FleetNext(env, f, x);
      var (k, cmds) := Writes(env, f[x.replica], x.event);
      forall i | 0 <= i < |n|
        ensures ReplicaOk(env, n[i]) && n[i].logs == Append(f[0].logs, k, cmds)
        ensures n[i].tickets == if i == x.replica then Stub(env, f[i], x.event) else f[i].tickets
      {
        assert ReplicaOk(env, f[i]) && f[i].logs == f[0].logs && f[x.replica].logs == f[0].logs;
        NextReplica(env, f[i], if i == x.replica then x.event else Others(k, cmds));
        NextFields(env, f[i], x.event);
        SeenByOthers(env, f[i], k, cmds);
      }
      forall i, j | 0 <= i < j < |n| ensures n[i].tickets.Keys !! n[j].tickets.Keys {
        FleetApart(env, f, x, i, j);
      }
    }
  }

  lemma FleetApart(env: Env, f: seq<State>, x: Step, i: nat, j: nat)
    requires FleetInv(env, f) && x.replica < |f| && i < j < |f|
    ensures var a := if i == x.replica then Stub(env, f[i], x.event) else f[i].tickets;
            var b := if j == x.replica then Stub(env, f[j], x.event) else f[j].tickets;
            a.Keys !! b.Keys
  {
    hide Inv, Stub, SessionStamped, NotYet, DeliveryStamped, OncePerData, Bounded;
    assert ReplicaOk(env, f[i]) && ReplicaOk(env, f[j]);
    if i == x.replica {
      NewNotesApart(env, f[i], f[j], x.event);
    } else if j == x.replica {
      NewNotesApart(env, f[j], f[i], x.event);
    }
  }

  lemma {:induction false} FleetRunKeeps(env: Env, cfgs: seq<Config>, steps: seq<Step>)
    ensures FleetInv(env, FleetRun(env, cfgs, steps))
  {
    hide ReplicaOk, FleetNext, Start;
    if steps == [] {
      forall i | 0 <= i < |cfgs|
        ensures ReplicaOk(env, Start(env, cfgs[i])) && Start(env, cfgs[i]).logs == map[]
                && Start(env, cfgs[i]).tickets == map[]
      {
        StartReplica(env, cfgs[i]);
      }
    } else {
      hide FleetInv;
      FleetRunKeeps(env, cfgs, steps[..|steps| - 1]);
      FleetKeeps(env, FleetRun(env, cfgs, steps[..|steps| - 1]), steps[|steps| - 1]);
    }
  }

  // ---------- Whose names are in the stores ----------

  /** Commands that come from no replica: late ones, or a stranger's. */
  predicate StraysNamed(steps: seq<Step>) {
    forall i :: 0 <= i < |steps| && steps[i].event.Others? ==> Quota.Named(steps[i].event.cmds)
  }

  ghost predicate LogsNamed(logs: Logs) {
    forall k :: Quota.Named(LogOf(logs, k))
  }

  lemma NamedAppend(a: seq<Quota.Command>, b: seq<Quota.Command>)
    requires Quota.Named(a) && Quota.Named(b)
    ensures Quota.Named(a + b)
  {
    hide UsernameOk;
  }

  lemma LogsNamedAppend(logs: Logs, k: nat, cmds: seq<Quota.Command>)
    requires LogsNamed(logs) && Quota.Named(cmds)
    ensures LogsNamed(Append(logs, k, cmds))
  {
    hide LogOf, Append, Quota.Named;
    NoneNamed();
    forall j ensures Quota.Named(LogOf(Append(logs, k, cmds), j)) {
      LogOfAppend(logs, k, cmds, j);
      if j == k {
        NamedAppend(LogOf(logs, j), cmds);
      } else {
        assert LogOf(logs, j) + [] == LogOf(logs, j);
      }
    }
  }

  lemma NoneNamed()
    ensures Quota.Named([])
  {
  }

  /** Every command the fleet itself writes is for a name that can be served, so
      the stores hold no other name unless a stray command brought it. */
  lemma {:induction false} NamesAreServed(env: Env, cfgs: seq<Config>, steps: seq<Step>)
    requires cfgs != [] && StraysNamed(steps)
    ensures LogsNamed(FleetRun(env, cfgs, steps)[0].logs)
  {
    hide Next, Writes, Start, Append, LogOf, Quota.Named, LogsNamed;
    if steps == [] {
      StartReplica(env, cfgs[0]);
      EmptyLogsNamed();
    } else {
      var before, x := steps[..|steps| - 1], steps[|steps| - 1];
      NamesAreServed(env, cfgs, before);
      if x.replica < |cfgs| {
        var f := FleetRun(env, cfgs, before);
        FleetRunKeeps(env, cfgs, before);
        assert ReplicaOk(env, f[x.replica]) && f[x.replica].logs == f[0].logs;
        if x.event.Others? {
          WritesOfOthers(env, f[x.replica], x.event);
        } else {
          OwnNamesAreServed(env, f[x.replica], x.event);
        }
        var (k, cmds) := Writes(env, f[x.replica], x.event);
        LogsNamedAppend(f[0].logs, k, cmds);
        NextFields(env, f[0], x.event);
        SeenByOthers(env, f[0], k, cmds);
      }
    }
  }

  lemma WritesOfOthers(env: Env, s: State, e: Event)
    requires e.Others?
    ensures Writes(env, s, e).1 == e.cmds
  {
  }

  lemma EmptyLogsNamed()
    ensures LogsNamed(map[])
  {
  }

  /** So the fleet's counters are exact: each answer is what was added for that
      gateway, account, dimension and window, and nothing else. */
  lemma FleetCountsAreExact(env: Env, cfgs: seq<Config>, steps: seq<Step>, k: nat, p: nat, skew: nat, latency: nat)
    requires cfgs != [] && StraysNamed(steps) && 2 * skew + latency <= Quota.WINDOW
    requires Quota.Timed(LogOf(FleetRun(env, cfgs, steps)[0].logs, k), skew, latency)
    requires var log := LogOf(FleetRun(env, cfgs, steps)[0].logs, k); p < |log| && log[p].IncrBy?
    ensures var log := LogOf(FleetRun(env, cfgs, steps)[0].logs, k);
            Quota.AnswerAt(log, p) == Quota.Total(log[..p + 1], log[p].Id())
  {
    hide FleetRun, LogOf, Quota.Timed, Quota.Named, Quota.AnswerAt, Quota.Total;
    NamesAreServed(env, cfgs, steps);
    Quota.CountsAreExact(LogOf(FleetRun(env, cfgs, steps)[0].logs, k), p, skew, latency);
  }

  // ---------- Adding up what was relayed ----------

  /** Every message the fleet has relayed. */
  function Relayed(f: seq<State>): seq<Delivery> {
    if f == [] then [] else Relayed(f[..|f| - 1]) + f[|f| - 1].relayed
  }

  /** The message was counted in dimension `dim` on store `k`. */
  predicate CountedOn(env: Env, d: Delivery, k: nat, dim: Dimension) {
    d.limiter.Some? && env.server(d.limiter.value.limit.store) == k && dim in d.counts
  }

  // Two messages counted on one store have different places in its log.
  ghost predicate Apart(env: Env, ds: seq<Delivery>, k: nat, dim: Dimension) {
    forall i, j :: 0 <= i < j < |ds| && CountedOn(env, ds[i], k, dim) && CountedOn(env, ds[j], k, dim) ==>
      ds[i].counts[dim] != ds[j].counts[dim]
  }

  lemma {:induction false} RelayedBy(f: seq<State>, a: nat) returns (i: nat, j: nat)
    requires a < |Relayed(f)|
    ensures i < |f| && j < |f[i].relayed| && f[i].relayed[j] == Relayed(f)[a]
  {
    var n := |f| - 1;
    if a < |Relayed(f[..n])| {
      i, j := RelayedBy(f[..n], a);
    } else {
      i, j := n, a - |Relayed(f[..n])|;
    }
  }

  lemma PlaceIsNoted(env: Env, s: State, j: nat, k: nat, dim: Dimension)
    requires TicketInv(env, s) && j < |s.relayed| && CountedOn(env, s.relayed[j], k, dim)
    ensures var d := s.relayed[j]; Noted(s.tickets, k, d.counts[dim], d.conn, d.begunAt)
  {
    hide SessionStamped, NotYet, OncePerData, Bounded;
    assert DeliveryStamped(env, s.tickets, s.relayed[j]);
  }

  lemma ApartInReplica(env: Env, s: State, i: nat, j: nat, k: nat, dim: Dimension)
    requires TicketInv(env, s) && i < j < |s.relayed| && CountedOn(env, s.relayed[i], k, dim)
             && CountedOn(env, s.relayed[j], k, dim)
    ensures s.relayed[i].counts[dim] != s.relayed[j].counts[dim]
  {
    hide SessionStamped, NotYet, DeliveryStamped, Bounded;
    PlaceIsNoted(env, s, i, k, dim);
    PlaceIsNoted(env, s, j, k, dim);
    assert !SameData(s.relayed[i], s.relayed[j]);
  }

  lemma {:induction false} FleetIsApart(env: Env, f: seq<State>, k: nat, dim: Dimension)
    requires FleetInv(env, f)
    ensures Apart(env, Relayed(f), k, dim)
  {
    hide Inv, TicketInv;
    if f != [] {
      var n := |f| - 1;
      var before, last, ds := f[..n], f[n], Relayed(f);
      assert FleetInv(env, before);
      FleetIsApart(env, before, k, dim);
      var m := |Relayed(before)|;
      assert ReplicaOk(env, last);
      forall i, j | 0 <= i < j < |ds| && CountedOn(env, ds[i], k, dim) && CountedOn(env, ds[j], k, dim)
        ensures ds[i].counts[dim] != ds[j].counts[dim]
      {
        if i >= m {
          ApartInReplica(env, last, i - m, j - m, k, dim);
        } else if j >= m {
          var p, q := RelayedBy(before, i);
          assert ReplicaOk(env, f[p]);
          PlaceIsNoted(env, f[p], q, k, dim);
          PlaceIsNoted(env, last, j - m, k, dim);
          assert f[p].tickets.Keys !! last.tickets.Keys;
        } else {
          assert ds[i] == Relayed(before)[i] && ds[j] == Relayed(before)[j];
        }
      }
    }
  }

  /** The message was counted under a limit of at most `limit`, by an increment
      that `within` describes. */
  predicate Charged(env: Env, d: Delivery, log: seq<Quota.Command>, k: nat, dim: Dimension, limit: int,
                    within: Quota.Command -> bool)
  {
    CountedOn(env, d, k, dim) && Quota.LimitFor(d.limiter.value.limit.limits, dim) <= limit
    && d.counts[dim] < |log| && within(log[d.counts[dim]])
  }

  /** What such messages add up to: one each, or their recipients. */
  function Charges(env: Env, ds: seq<Delivery>, log: seq<Quota.Command>, k: nat, dim: Dimension, limit: int,
                   within: Quota.Command -> bool): nat
  {
    if ds == [] then 0
    else
      var d := ds[|ds| - 1];
      Charges(env, ds[..|ds| - 1], log, k, dim, limit, within)
      + if Charged(env, d, log, k, dim, limit, within) then Amount(|d.to|, dim) else 0
  }

  function Places(env: Env, ds: seq<Delivery>, log: seq<Quota.Command>, k: nat, dim: Dimension, limit: int,
                  within: Quota.Command -> bool): set<nat>
  {
    set i | 0 <= i < |ds| && Charged(env, ds[i], log, k, dim, limit, within) :: ds[i].counts[dim]
  }

  /** Each place holds the message's own increment, answered within its limit. */
  ghost predicate AllPlaced(env: Env, ds: seq<Delivery>, log: seq<Quota.Command>, k: nat, dim: Dimension) {
    forall i :: 0 <= i < |ds| && CountedOn(env, ds[i], k, dim) ==> WellPlaced(ds[i], log, dim)
  }

  predicate WellPlaced(d: Delivery, log: seq<Quota.Command>, dim: Dimension)
    requires d.limiter.Some? && dim in d.counts
  {
    var p, l := d.counts[dim], d.limiter.value;
    && p < |log| && log[p].IncrBy? && log[p].gateway == l.gateway && log[p].account == d.account
    && log[p].dimension == dim
    && log[p].amount == Amount(|d.to|, dim) && Quota.AnswerAt(log, p) <= Quota.LimitFor(l.limit.limits, dim)
  }

  lemma DeliveryPlaced(env: Env, s: State, j: nat, k: nat, dim: Dimension)
    requires Inv(env, s) && j < |s.relayed| && CountedOn(env, s.relayed[j], k, dim)
    ensures WellPlaced(s.relayed[j], LogOf(s.logs, k), dim)
  {
    hide SessionsOk, WellBuilt, ClientsOk, CountedDims, LogOf, Quota.AnswerAt, FromOk, Policy.Allows, Policy.CanSign,
         LoginOk, FilteredOk, PolicyFor, Enabled;
    assert DeliveryOk(env, s.history, s.logs, s.relayed[j]);
  }

  lemma FleetIsPlaced(env: Env, f: seq<State>, k: nat, dim: Dimension)
    requires FleetInv(env, f) && f != []
    ensures AllPlaced(env, Relayed(f), LogOf(f[0].logs, k), k, dim)
  {
    hide Inv, TicketInv, WellPlaced, LogOf;
    forall a | 0 <= a < |Relayed(f)| && CountedOn(env, Relayed(f)[a], k, dim)
      ensures WellPlaced(Relayed(f)[a], LogOf(f[0].logs, k), dim)
    {
      var i, j := RelayedBy(f, a);
      assert ReplicaOk(env, f[i]) && f[i].logs == f[0].logs;
      DeliveryPlaced(env, f[i], j, k, dim);
    }
  }

  lemma PlacesNext(env: Env, ds: seq<Delivery>, log: seq<Quota.Command>, k: nat, dim: Dimension, limit: int,
                   within: Quota.Command -> bool)
    requires ds != [] && Apart(env, ds, k, dim)
    ensures var n, all := |ds| - 1, Places(env, ds, log, k, dim, limit, within);
            var before := Places(env, ds[..n], log, k, dim, limit, within);
            if Charged(env, ds[n], log, k, dim, limit, within)
            then all == before + {ds[n].counts[dim]} && ds[n].counts[dim] !in before else all == before
  {
    var n := |ds| - 1;
    var before := ds[..n];
    assert forall i :: 0 <= i < n ==> before[i] == ds[i];
    hide CountedOn;
    if Charged(env, ds[n], log, k, dim, limit, within) {
      assert forall i :: 0 <= i < n && Charged(env, ds[i], log, k, dim, limit, within) ==>
                           CountedOn(env, ds[i], k, dim);
    }
  }

  /** Messages at different places add up to what their increments added. */
  lemma {:induction false} ChargesAreSums(env: Env, ds: seq<Delivery>, log: seq<Quota.Command>, k: nat,
                                          dim: Dimension, limit: int, within: Quota.Command -> bool)
    requires Apart(env, ds, k, dim) && AllPlaced(env, ds, log, k, dim)
    ensures Charges(env, ds, log, k, dim, limit, within)
         == Quota.SumAt(log, |log|, Places(env, ds, log, k, dim, limit, within))
  {
    if ds == [] {
      EmptySum(log, |log|);
      assert Places(env, ds, log, k, dim, limit, within) == {};
    } else {
      hide Places, Quota.SumAt, Quota.AnswerAt;
      var n := |ds| - 1;
      ChargesAreSums(env, ds[..n], log, k, dim, limit, within);
      PlacesNext(env, ds, log, k, dim, limit, within);
      if Charged(env, ds[n], log, k, dim, limit, within) {
        assert WellPlaced(ds[n], log, dim);
        Quota.SumAdd(log, |log|, Places(env, ds[..n], log, k, dim, limit, within), ds[n].counts[dim]);
      }
    }
  }

  lemma {:induction false} EmptySum(log: seq<Quota.Command>, n: nat)
    requires n <= |log|
    ensures Quota.SumAt(log, n, {}) == 0
  {
    if n > 0 {
      EmptySum(log, n - 1);
    }
  }

  lemma PlacesPass(env: Env, ds: seq<Delivery>, log: seq<Quota.Command>, k: nat, dim: Dimension, limit: nat,
                   within: Quota.Command -> bool, p: nat)
    requires AllPlaced(env, ds, log, k, dim) && p in Places(env, ds, log, k, dim, limit, within)
    ensures p < |log| && Quota.Passes(log, p, limit) && within(log[p])
  {
    hide Quota.AnswerAt;
    var i :| 0 <= i < |ds| && Charged(env, ds[i], log, k, dim, limit, within) && ds[i].counts[dim] == p;
    assert WellPlaced(ds[i], log, dim);
  }

  // ---------- The quotas ----------

  /** However many replicas there are, whatever they load and however their
      sessions interleave: the messages relayed for one account in one window,
      under limits of at most `limit`, number at most `limit`, and so do their
      recipients. */
  lemma AdmittedWithinLimit(env: Env, cfgs: seq<Config>, steps: seq<Step>, k: nat, id: Quota.Id, limit: nat,
                            skew: nat, latency: nat)
    requires cfgs != [] && 2 * skew + latency <= Quota.WINDOW
    requires Quota.Timed(LogOf(FleetRun(env, cfgs, steps)[0].logs, k), skew, latency)
    ensures var f := FleetRun(env, cfgs, steps);
            Charges(env, Relayed(f), LogOf(f[0].logs, k), k, id.dimension, limit,
                    (c: Quota.Command) => c.Id() == id) <= limit
  {
    hide FleetRun, FleetInv, Relayed, LogOf, Charges, Places, Apart, AllPlaced, Quota.Timed, Quota.Passes,
         Quota.SumAt, Quota.Passed;
    FleetRunKeeps(env, cfgs, steps);
    var f := FleetRun(env, cfgs, steps);
    var ds, log, within := Relayed(f), LogOf(f[0].logs, k), (c: Quota.Command) => c.Id() == id;
    FleetIsApart(env, f, k, id.dimension);
    FleetIsPlaced(env, f, k, id.dimension);
    ChargesAreSums(env, ds, log, k, id.dimension, limit, within);
    var ps := Places(env, ds, log, k, id.dimension, limit, within);
    forall p | p in ps ensures p < |log| && Quota.Passes(log, p, limit) && log[p].Id() == id {
      PlacesPass(env, ds, log, k, id.dimension, limit, within, p);
    }
    Quota.SumWithin(log, |log|, ps, id, limit);
    Quota.PassedWithinLimit(log, |log|, id, limit, skew, latency);
  }

  /** And within any span of one window's length of the store's time, three times
      that. */
  lemma AdmittedInSpan(env: Env, cfgs: seq<Config>, steps: seq<Step>, k: nat, id: Quota.Id, from: nat, limit: nat,
                       skew: nat, latency: nat)
    requires cfgs != [] && 2 * skew + latency <= Quota.WINDOW
    requires Quota.Timed(LogOf(FleetRun(env, cfgs, steps)[0].logs, k), skew, latency)
    ensures var f := FleetRun(env, cfgs, steps);
            Charges(env, Relayed(f), LogOf(f[0].logs, k), k, id.dimension, limit,
                    (c: Quota.Command) => Quota.InStoreSpan(c, id, from))
            <= 3 * limit
  {
    hide FleetRun, FleetInv, Relayed, LogOf, Charges, Places, Apart, AllPlaced, Quota.Timed, Quota.Passes,
         Quota.SumAt, Quota.PassedInStoreSpan, Quota.InStoreSpan;
    FleetRunKeeps(env, cfgs, steps);
    var f := FleetRun(env, cfgs, steps);
    var ds, log, within := Relayed(f), LogOf(f[0].logs, k), (c: Quota.Command) => Quota.InStoreSpan(c, id, from);
    FleetIsApart(env, f, k, id.dimension);
    FleetIsPlaced(env, f, k, id.dimension);
    ChargesAreSums(env, ds, log, k, id.dimension, limit, within);
    var ps := Places(env, ds, log, k, id.dimension, limit, within);
    forall p | p in ps ensures p < |log| && Quota.Passes(log, p, limit) && Quota.InStoreSpan(log[p], id, from) {
      PlacesPass(env, ds, log, k, id.dimension, limit, within, p);
    }
    Quota.SumInSpan(log, |log|, ps, id, from, limit);
    Quota.ThreeTimesTheLimit(log, id, from, limit, skew, latency);
  }

  /** On the clocks that name the windows, twice that. */
  lemma AdmittedInClockSpan(env: Env, cfgs: seq<Config>, steps: seq<Step>, k: nat, id: Quota.Id, from: nat, limit: nat,
                            skew: nat, latency: nat)
    requires cfgs != [] && 2 * skew + latency <= Quota.WINDOW
    requires Quota.Timed(LogOf(FleetRun(env, cfgs, steps)[0].logs, k), skew, latency)
    ensures var f := FleetRun(env, cfgs, steps);
            Charges(env, Relayed(f), LogOf(f[0].logs, k), k, id.dimension, limit,
                    (c: Quota.Command) => Quota.InSpan(c, id, from))
            <= 2 * limit
  {
    hide FleetRun, FleetInv, Relayed, LogOf, Charges, Places, Apart, AllPlaced, Quota.Timed, Quota.Passes, Quota.SumAt,
         Quota.PassedInSpan, Quota.InSpan;
    FleetRunKeeps(env, cfgs, steps);
    var f := FleetRun(env, cfgs, steps);
    var ds, log, within := Relayed(f), LogOf(f[0].logs, k), (c: Quota.Command) => Quota.InSpan(c, id, from);
    FleetIsApart(env, f, k, id.dimension);
    FleetIsPlaced(env, f, k, id.dimension);
    ChargesAreSums(env, ds, log, k, id.dimension, limit, within);
    var ps := Places(env, ds, log, k, id.dimension, limit, within);
    forall p | p in ps ensures p < |log| && Quota.Passes(log, p, limit) && Quota.InSpan(log[p], id, from) {
      PlacesPass(env, ds, log, k, id.dimension, limit, within, p);
    }
    Quota.SumInClockSpan(log, |log|, ps, id, from, limit);
    Quota.TwiceTheLimit(log, id, from, limit, skew, latency);
  }

  /** Once a counter is past a limit, no message counted by it after that is
      relayed under that limit, by any replica. */
  lemma NothingAfterOver(env: Env, cfgs: seq<Config>, steps: seq<Step>, k: nat, p: nat, a: nat, limit: nat, skew: nat,
                         latency: nat)
    requires 2 * skew + latency <= Quota.WINDOW && a < |Relayed(FleetRun(env, cfgs, steps))| && cfgs != []
    requires Quota.Timed(LogOf(FleetRun(env, cfgs, steps)[0].logs, k), skew, latency)
    requires var log := LogOf(FleetRun(env, cfgs, steps)[0].logs, k);
             p < |log| && log[p].IncrBy? && !Quota.Passes(log, p, limit)
    requires var f := FleetRun(env, cfgs, steps);
             var log := LogOf(f[0].logs, k);
             Charged(env, Relayed(f)[a], log, k, log[p].dimension, limit, (c: Quota.Command) => c.Id() == log[p].Id())
    ensures var f := FleetRun(env, cfgs, steps);
            Relayed(f)[a].counts[LogOf(f[0].logs, k)[p].dimension] < p
  {
    hide FleetRun, FleetInv, Relayed, LogOf, Quota.Timed, Quota.AnswerAt, Quota.WindowOf;
    FleetRunKeeps(env, cfgs, steps);
    var f := FleetRun(env, cfgs, steps);
    var log := LogOf(f[0].logs, k);
    var dim := log[p].dimension;
    FleetIsPlaced(env, f, k, dim);
    var d := Relayed(f)[a];
    assert WellPlaced(d, log, dim);
    var q := d.counts[dim];
    if p < q {
      Quota.OnceOverAlwaysOver(log, p, q, limit, skew, latency);
    }
  }

  /** The message was relayed for `account` under the limits `limits` of gateway
      `gateway`, and its counter of dimension `dim` is that of window `w`. */
  predicate RelayedIn(env: Env, d: Delivery, log: seq<Quota.Command>, k: nat, gateway: string, limits: Quota.Limits,
                      account: string, dim: Dimension, w: nat)
  {
    && d.account == account && d.limiter.Some? && d.limiter.value.gateway == gateway
    && d.limiter.value.limit.limits == limits
    && CountedOn(env, d, k, dim) && d.counts[dim] < |log| && Quota.WindowOf(log[d.counts[dim]].clock) == w
  }

  function MessagesIn(env: Env, ds: seq<Delivery>, log: seq<Quota.Command>, k: nat, gateway: string,
                      limits: Quota.Limits, account: string, w: nat): nat
  {
    if ds == [] then 0
    else MessagesIn(env, ds[..|ds| - 1], log, k, gateway, limits, account, w)
         + if RelayedIn(env, ds[|ds| - 1], log, k, gateway, limits, account, Messages, w) then 1 else 0
  }

  function RecipientsIn(env: Env, ds: seq<Delivery>, log: seq<Quota.Command>, k: nat, gateway: string,
                        limits: Quota.Limits, account: string, w: nat): nat
  {
    if ds == [] then 0
    else RecipientsIn(env, ds[..|ds| - 1], log, k, gateway, limits, account, w)
         + if RelayedIn(env, ds[|ds| - 1], log, k, gateway, limits, account, Recipients, w)
           then |ds[|ds| - 1].to| else 0
  }

  lemma RelayedIsCharged(env: Env, d: Delivery, log: seq<Quota.Command>, k: nat, gateway: string,
                         limits: Quota.Limits, account: string, dim: Dimension, w: nat)
    requires RelayedIn(env, d, log, k, gateway, limits, account, dim, w) && WellPlaced(d, log, dim)
    ensures Charged(env, d, log, k, dim, Quota.LimitFor(limits, dim),
                    (c: Quota.Command) => c.Id() == Quota.CounterId(gateway, account, dim, w))
  {
    hide Quota.AnswerAt, Quota.WindowOf;
  }

  lemma {:induction false} RelayedAreCharged(env: Env, ds: seq<Delivery>, log: seq<Quota.Command>, k: nat,
                                             gateway: string, limits: Quota.Limits, account: string, w: nat)
    requires AllPlaced(env, ds, log, k, Messages) && AllPlaced(env, ds, log, k, Recipients)
    ensures MessagesIn(env, ds, log, k, gateway, limits, account, w)
         <= Charges(env, ds, log, k, Messages, limits.messages,
                    (c: Quota.Command) => c.Id() == Quota.CounterId(gateway, account, Messages, w))
    ensures RecipientsIn(env, ds, log, k, gateway, limits, account, w)
         <= Charges(env, ds, log, k, Recipients, limits.recipients,
                    (c: Quota.Command) => c.Id() == Quota.CounterId(gateway, account, Recipients, w))
  {
    hide WellPlaced, Charged, CountedOn, Quota.WindowOf;
    if ds != [] {
      var n := |ds| - 1;
      var d := ds[n];
      RelayedAreCharged(env, ds[..n], log, k, gateway, limits, account, w);
      if RelayedIn(env, d, log, k, gateway, limits, account, Messages, w) {
        RelayedIsCharged(env, d, log, k, gateway, limits, account, Messages, w);
      }
      if RelayedIn(env, d, log, k, gateway, limits, account, Recipients, w) {
        RelayedIsCharged(env, d, log, k, gateway, limits, account, Recipients, w);
      }
    }
  }

  /** The quota promise. In every timely run of any number of replicas, the
      messages relayed for one account in one window number at most
      messagesPerMinute and their recipients at most recipientsPerMinute. */
  lemma QuotaIsKept(env: Env, cfgs: seq<Config>, steps: seq<Step>, k: nat, gateway: string, limits: Quota.Limits,
                    account: string, w: nat, skew: nat, latency: nat)
    requires cfgs != [] && 2 * skew + latency <= Quota.WINDOW
    requires Quota.Timed(LogOf(FleetRun(env, cfgs, steps)[0].logs, k), skew, latency)
    ensures var f := FleetRun(env, cfgs, steps);
            var log := LogOf(f[0].logs, k);
            && (limits.messages > 0 ==>
                  MessagesIn(env, Relayed(f), log, k, gateway, limits, account, w) <= limits.messages)
            && (limits.recipients > 0 ==>
                  RecipientsIn(env, Relayed(f), log, k, gateway, limits, account, w) <= limits.recipients)
  {
    hide FleetRun, FleetInv, Relayed, LogOf, Charges, AllPlaced, MessagesIn, RecipientsIn, Quota.Timed;
    FleetRunKeeps(env, cfgs, steps);
    var f := FleetRun(env, cfgs, steps);
    var ds, log := Relayed(f), LogOf(f[0].logs, k);
    FleetIsPlaced(env, f, k, Messages);
    FleetIsPlaced(env, f, k, Recipients);
    RelayedAreCharged(env, ds, log, k, gateway, limits, account, w);
    if limits.messages > 0 {
      AdmittedWithinLimit(env, cfgs, steps, k, Quota.CounterId(gateway, account, Messages, w), limits.messages, skew,
                          latency);
    }
    if limits.recipients > 0 {
      AdmittedWithinLimit(env, cfgs, steps, k, Quota.CounterId(gateway, account, Recipients, w), limits.recipients,
                          skew, latency);
    }
  }

  /** The message was counted in a dimension, in some window of the store its
      limiter names, and within its limit. */
  ghost predicate CountedIn(env: Env, f: seq<State>, d: Delivery, dim: Dimension)
    requires f != [] && d.limiter.Some?
  {
    var l, k := d.limiter.value, env.server(d.limiter.value.limit.store);
    var log := LogOf(f[0].logs, k);
    && dim in d.counts && d.counts[dim] < |log|
    && RelayedIn(env, d, log, k, l.gateway, l.limit.limits, d.account, dim, Quota.WindowOf(log[d.counts[dim]].clock))
  }

  /** No message escapes the count: whatever was relayed under a limiter was
      counted as a message where messages are limited, and with its recipients
      where those are. */
  lemma NothingEscapes(env: Env, cfgs: seq<Config>, steps: seq<Step>, a: nat)
    requires a < |Relayed(FleetRun(env, cfgs, steps))| && cfgs != []
    requires Relayed(FleetRun(env, cfgs, steps))[a].limiter.Some?
    ensures var f := FleetRun(env, cfgs, steps);
            var d := Relayed(f)[a];
            && (d.limiter.value.limit.limits.messages > 0 ==> CountedIn(env, f, d, Messages))
            && (d.limiter.value.limit.limits.recipients > 0 ==> CountedIn(env, f, d, Recipients))
  {
    hide FleetRun, Relayed, Inv, TicketInv, CountedIn;
    FleetRunKeeps(env, cfgs, steps);
    var f := FleetRun(env, cfgs, steps);
    var i, j := RelayedBy(f, a);
    assert ReplicaOk(env, f[i]) && f[i].logs == f[0].logs;
    CountedWhenDeclared(env, f[i], j);
    var d := f[i].relayed[j];
    if Messages in d.counts {
      CountedSomewhere(env, f, i, j, Messages);
    }
    if Recipients in d.counts {
      CountedSomewhere(env, f, i, j, Recipients);
    }
  }

  lemma CountedSomewhere(env: Env, f: seq<State>, i: nat, j: nat, dim: Dimension)
    requires i < |f| && ReplicaOk(env, f[i]) && f[i].logs == f[0].logs && j < |f[i].relayed|
    requires f[i].relayed[j].limiter.Some? && dim in f[i].relayed[j].counts
    ensures CountedIn(env, f, f[i].relayed[j], dim)
  {
    hide Inv, TicketInv, LogOf, WellPlaced, Quota.WindowOf;
    var k := env.server(f[i].relayed[j].limiter.value.limit.store);
    DeliveryPlaced(env, f[i], j, k, dim);
    PlacedBelow(f[i].relayed[j], LogOf(f[0].logs, k), dim);
  }

  lemma PlacedBelow(d: Delivery, log: seq<Quota.Command>, dim: Dimension)
    requires d.limiter.Some? && dim in d.counts && WellPlaced(d, log, dim)
    ensures d.counts[dim] < |log|
  {
  }

  lemma CountedWhenDeclared(env: Env, s: State, j: nat)
    requires Inv(env, s) && j < |s.relayed| && s.relayed[j].limiter.Some?
    ensures var d := s.relayed[j];
            && (d.limiter.value.limit.limits.messages > 0 ==> Messages in d.counts)
            && (d.limiter.value.limit.limits.recipients > 0 ==> Recipients in d.counts)
  {
    hide SessionsOk, WellBuilt, ClientsOk, CountedDims, FromOk, Policy.Allows, Inbound.SignedFor, LoginOk, FilteredOk,
         PolicyFor, Enabled, Admitted;
    var d := s.relayed[j];
    assert DeliveryOk(env, s.history, s.logs, d);
    var all := CountedDims(d.limiter, |d.to|);
    assert all[..|all|] == all;
  }
}
