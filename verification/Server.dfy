/** The relay as a state machine: one configuration snapshot that reloads
    replace, any number of client sessions running against it, and the quota
    stores it shares with other replicas. Models
    `Reload`, `reusableLimiter`, `policyFor` and the session methods of
    internal/gateway/server.go, and `authenticate` of internal/gateway/auth.go.
 */
module Server {
  import opened Text
  import opened Policy
  import opened Accounts
  import opened Inbound
  import Quota
  import Milter

  // ---------- Configuration ----------

  datatype StoreConfig = StoreConfig(
    addresses: seq<string>,
    masterName: string,
    db: int,
    username: string,
    password: string,
    sentinelUsername: string,
    sentinelPassword: string,
    tls: bool,
    insecureSkipVerify: bool,
    rootCA: string,
    timeout: int)

  predicate SameStore(a: StoreConfig, b: StoreConfig) {
    a.addresses == b.addresses && a.masterName == b.masterName && a.db == b.db
    && a.username == b.username && a.password == b.password
    && a.sentinelUsername == b.sentinelUsername && a.sentinelPassword == b.sentinelPassword
    && a.tls == b.tls && a.insecureSkipVerify == b.insecureSkipVerify
    && a.rootCA == b.rootCA && a.timeout == b.timeout
  }

  datatype RateLimit = RateLimit(store: StoreConfig, limits: Quota.Limits)

  /** `keys` are the domains the gateway holds a signing key for. */
  datatype Config = Config(
    hostname: string,
    accounts: seq<Account>,
    rateLimit: Option<RateLimit>,
    keys: set<string>,
    filters: seq<Milter.FilterConfig>)

  /** The quota limiter: `client` names its connection to the store. */
  datatype Limiter = Limiter(client: nat, gateway: string, limit: RateLimit)

  datatype AccountPolicy = AccountPolicy(senders: SenderPolicy, skipHeaderFromCheck: bool)

  datatype Snapshot = Snapshot(
    config: Config,
    accounts: map<string, Account>,
    policies: map<string, AccountPolicy>,
    limiter: Option<Limiter>)

  /** What the relay is given by its surroundings: the cost encoded in a hash,
      password verification, the number of processors, and which store a store
      configuration reaches. */
  datatype Env = Env(cost: string -> Option<int>, verify: (string, string) -> bool, procs: nat,
                     server: StoreConfig -> nat)

  // ---------- Building a snapshot ----------

  function ReusableLimiter(prev: Option<Snapshot>, cfg: Config): Option<Limiter> {
    if prev.None? || prev.value.limiter.None? || cfg.rateLimit.None? then None
    else if !SameStore(prev.value.limiter.value.limit.store, cfg.rateLimit.value.store) then None
    else Some(Limiter(prev.value.limiter.value.client, cfg.hostname, cfg.rateLimit.value))
  }

  function NewLimiter(cfg: Config, client: nat): Option<Limiter> {
    if cfg.rateLimit.None? then None else Some(Limiter(client, cfg.hostname, cfg.rateLimit.value))
  }

  function ByUsername(served: seq<Account>): map<string, Account> {
    if served == [] then map[]
    else ByUsername(served[..|served| - 1])[served[|served| - 1].username := served[|served| - 1]]
  }

  function PolicyOf(a: Account): AccountPolicy {
    AccountPolicy(Compile(a.allowedSenders), a.skipHeaderFromCheck)
  }

  function BuildSnapshot(env: Env, cfg: Config, prev: Option<Snapshot>, client: nat): Snapshot {
    var accounts := ByUsername(Served(env.cost, cfg.accounts, |cfg.accounts|));
    var reused := ReusableLimiter(prev, cfg);
    Snapshot(cfg, accounts, map u | u in accounts :: PolicyOf(accounts[u]),
             if reused.Some? then reused else NewLimiter(cfg, client))
  }

  /** An account absent from the snapshot may send nothing. */
  function PolicyFor(snap: Snapshot, username: string): AccountPolicy {
    if username in snap.policies then snap.policies[username] else AccountPolicy(SenderPolicy({}, {}), false)
  }

  predicate Enabled(snap: Snapshot, username: string) {
    username in snap.accounts && !snap.accounts[username].disabled
  }

  predicate WellBuilt(snap: Snapshot) {
    && (forall u | u in snap.accounts ::
          snap.accounts[u].username == u && snap.accounts[u] in snap.config.accounts && UsernameOk(u))
    && snap.policies.Keys == snap.accounts.Keys
    && (forall u | u in snap.accounts :: snap.policies[u] == PolicyOf(snap.accounts[u]))
    && (snap.limiter.Some? <==> snap.config.rateLimit.Some?)
    && (snap.limiter.Some? ==> snap.limiter.value.limit == snap.config.rateLimit.value
                               && snap.limiter.value.gateway == snap.config.hostname)
  }

  lemma {:induction false} ByUsernameKeys(served: seq<Account>)
    ensures forall u | u in ByUsername(served) :: ByUsername(served)[u].username == u && ByUsername(served)[u] in served
    ensures forall a | a in served :: a.username in ByUsername(served)
  {
    if served != [] {
      var n := |served| - 1;
      ByUsernameKeys(served[..n]);
      assert served == served[..n] + [served[n]];
    }
  }

  lemma ServableIsNamed(cost: string -> Option<int>, a: Account)
    requires Servable(cost, a)
    ensures UsernameOk(a.username)
  {
  }

  lemma AccountIsBuilt(env: Env, cfg: Config, u: string)
    requires u in ByUsername(Served(env.cost, cfg.accounts, |cfg.accounts|))
    ensures var a := ByUsername(Served(env.cost, cfg.accounts, |cfg.accounts|))[u];
            a.username == u && a in cfg.accounts && UsernameOk(u) && Servable(env.cost, a)
  {
    hide Servable, Served, ByUsername, UsernameOk;
    ByUsernameKeys(Served(env.cost, cfg.accounts, |cfg.accounts|));
    ServedIsExact(env.cost, cfg.accounts, |cfg.accounts|, u);
    ServableIsNamed(env.cost, ByUsername(Served(env.cost, cfg.accounts, |cfg.accounts|))[u]);
  }

  /** Every account of a snapshot is one of its configuration's, fit to be
      served, under the policy its own list stands for. */
  lemma SnapshotIsWellBuilt(env: Env, cfg: Config, prev: Option<Snapshot>, client: nat)
    ensures var snap := BuildSnapshot(env, cfg, prev, client);
            WellBuilt(snap) && forall u | u in snap.accounts :: Servable(env.cost, snap.accounts[u])
  {
    hide PolicyOf, Servable, Served, ByUsername, UsernameOk;
    var snap := BuildSnapshot(env, cfg, prev, client);
    forall u | u in snap.accounts
      ensures snap.accounts[u].username == u && snap.accounts[u] in cfg.accounts && UsernameOk(u)
              && Servable(env.cost, snap.accounts[u])
    {
      AccountIsBuilt(env, cfg, u);
    }
  }

  /** The first well formed account of a name. */
  ghost predicate FirstNamed(cost: string -> Option<int>, accounts: seq<Account>, u: string, i: int) {
    && 0 <= i < |accounts| && accounts[i].username == u && WellFormed(cost, accounts[i])
    && forall j :: 0 <= j < i && accounts[j].username == u ==> !WellFormed(cost, accounts[j])
  }

  /** It is what the snapshot serves under that name, and all it serves. */
  lemma SnapshotServes(env: Env, cfg: Config, prev: Option<Snapshot>, client: nat, u: string)
    ensures var snap := BuildSnapshot(env, cfg, prev, client);
            && (u in snap.accounts <==> exists i :: FirstNamed(env.cost, cfg.accounts, u, i))
            && (forall i | FirstNamed(env.cost, cfg.accounts, u, i) ::
                  u in snap.accounts && snap.accounts[u] == cfg.accounts[i])
  {
    var all := cfg.accounts;
    var served := Served(env.cost, all, |all|);
    hide WellFormed, Served, ByUsername, IsServed;
    ByUsernameKeys(served);
    ServedMembers(env.cost, all, |all|);
    ServedOnce(env.cost, all, |all|);
    forall i | 0 <= i < |all| ensures IsServed(env.cost, all, i) <==> FirstNamed(env.cost, all, all[i].username, i) {
      ServedIff(env.cost, all, i);
    }
    forall i | FirstNamed(env.cost, all, u, i) ensures u in ByUsername(served) && ByUsername(served)[u] == all[i] {
      assert all[i] in served;
      SameServed(served, ByUsername(served)[u], all[i]);
    }
  }

  lemma SameServed(served: seq<Account>, a: Account, b: Account)
    requires a in served && b in served && a.username == b.username
    requires forall i, j :: 0 <= i < j < |served| ==> served[i].username != served[j].username
    ensures a == b
  {
    var i :| 0 <= i < |served| && served[i] == a;
    var j :| 0 <= j < |served| && served[j] == b;
  }

  // ---------- Quota stores ----------

  /** The commands each store has run, by whichever replica. */
  type Logs = map<nat, seq<Quota.Command>>

  function LogOf(logs: Logs, k: nat): seq<Quota.Command> {
    if k in logs then logs[k] else []
  }

  function Append(logs: Logs, k: nat, cmds: seq<Quota.Command>): Logs {
    if cmds == [] then logs else logs[k := LogOf(logs, k) + cmds]
  }

  lemma LogOfAppend(logs: Logs, k: nat, cmds: seq<Quota.Command>, j: nat)
    ensures LogOf(Append(logs, k, cmds), j) == LogOf(logs, j) + if j == k then cmds else []
  {
  }

  function Amount(recipients: nat, d: Dimension): nat {
    Quota.AmountFor(recipients, d)
  }

  /** The dimensions a message is counted in, in the order they are counted. */
  function CountedDims(limiter: Option<Limiter>, recipients: nat): (dims: seq<Dimension>)
    ensures forall d :: d in dims <==> limiter.Some? && Quota.Counted(limiter.value.limit.limits, recipients, d)
    ensures Messages in dims <==> limiter.Some? && limiter.value.limit.limits.messages > 0
    ensures Recipients in dims <==> limiter.Some? && limiter.value.limit.limits.recipients > 0 && recipients > 0
    ensures forall i, j :: 0 <= i < j < |dims| ==> dims[i] == Messages && dims[j] == Recipients
  {
    if limiter.None? then []
    else
      var limits := limiter.value.limit.limits;
      (if Quota.Counted(limits, recipients, Messages) then [Messages] else [])
      + (if Quota.Counted(limits, recipients, Recipients) then [Recipients] else [])
  }

  // ---------- Sessions ----------

  const MAX_AUTH_FAILURES: nat := 3

  /** Where a session stands between two of its steps. A DATA command takes
      several: `at` is the step it began at, `dims` are the dimensions still to be
      counted, and `counts` says where in the store's log the others were. An
      increment runs before its expiry is set; `reply` is what came back. */
  datatype Phase =
    | Ready
    | Verifying(username: string, password: string)
    | Counting(at: nat, dims: seq<Dimension>, counts: map<Dimension, nat>)
    | Expiring(at: nat, dims: seq<Dimension>, counts: map<Dimension, nat>, pending: nat, clock: nat, reply: Option<nat>)
    | Checked(at: nat, counts: map<Dimension, nat>, body: string)

  /** How a session logged in: the steps at which it connected, sent its
      credentials and had them accepted, and the password it sent. */
  datatype Login = Login(born: nat, begun: nat, ended: nat, password: string)

  /** One client session. `mailed` is the SMTP library's record of an accepted
      MAIL; `snapAt`, `mailedAt`, `verifications` and `login` are history. */
  datatype Session = Session(
    snap: Snapshot,
    snapAt: nat,
    account: Option<Account>,
    from: string,
    to: seq<string>,
    failures: nat,
    open: bool,
    phase: Phase,
    mailed: bool,
    mailedAt: nat,
    verifications: nat,
    login: Login)

  function NewSession(current: Snapshot, now: nat): Session {
    Session(current, now, None, [], [], 0, true, Ready, false, 0, 0, Login(now, 0, 0, []))
  }

  /** The outcome of checking a password against a snapshot's accounts. */
  function Authenticate(env: Env, snap: Snapshot, username: string, password: string): Option<Account> {
    if username !in snap.accounts then None
    else
      var acct := snap.accounts[username];
      if env.verify(acct.passwordHash, password) && !acct.disabled then Some(acct) else None
  }

  function Reset(s: Session): Session {
    s.(from := [], to := [], mailed := false, phase := Ready)
  }

  /** Re-reads the account from the snapshot in service and adopts both; closes
      the session when the account is gone or disabled. */
  function StillAuthorized(s: Session, current: Snapshot, now: nat): Session
    requires s.account.Some?
  {
    var u := s.account.value.username;
    if Enabled(current, u) then s.(snap := current, snapAt := now, account := Some(current.accounts[u]))
    else Reset(s).(open := false)
  }

  // A password check starts: it needs a slot, and a session not yet past its
  // failures. The library offers AUTH only before a successful one.
  predicate MayVerify(s: Session) {
    s.open && s.phase.Ready? && s.account.None? && s.failures < MAX_AUTH_FAILURES
  }

  function BeginAuth(s: Session, username: string, password: string, now: nat): Session {
    if s.open && s.phase.Ready? && s.account.None? && s.failures >= MAX_AUTH_FAILURES then s.(open := false)
    else if MayVerify(s) then
      s.(phase := Verifying(username, password), verifications := s.verifications + 1, login := s.login.(begun := now))
    else s
  }

  function EndAuth(env: Env, s: Session, now: nat): Session {
    if !s.phase.Verifying? then s
    else match Authenticate(env, s.snap, s.phase.username, s.phase.password)
      case None => s.(phase := Ready, failures := s.failures + 1)
      case Some(acct) =>
        s.(phase := Ready, account := Some(acct), login := s.login.(ended := now, password := s.phase.password))
  }

  /** A session that is given wrong passwords, one after the other. */
  function Failing(env: Env, s: Session, tries: seq<(string, string)>, now: nat): Session {
    if tries == [] then s
    else
      var n := |tries| - 1;
      EndAuth(env, BeginAuth(Failing(env, s, tries[..n], now), tries[n].0, tries[n].1, now), now)
  }

  /** Three are verified and refused; after that the connection is closed and
      nothing is verified. */
  lemma {:induction false} ThreeTries(env: Env, snap: Snapshot, tries: seq<(string, string)>, now: nat)
    requires forall t | t in tries :: t.0 in snap.accounts && !snap.accounts[t.0].disabled ==>
               !env.verify(snap.accounts[t.0].passwordHash, t.1)
    ensures var s := Failing(env, NewSession(snap, now), tries, now);
            && s.account.None? && s.phase.Ready? && s.snap == snap
            && s.verifications == (if |tries| < 3 then |tries| else 3) && s.open == (|tries| <= 3)
            && (MayVerify(s) <==> |tries| < 3) && s.failures == s.verifications
  {
    if tries != [] {
      var n := |tries| - 1;
      assert tries[n] in tries;
      ThreeTries(env, snap, tries[..n], now);
    }
  }

  function DoMail(s: Session, current: Snapshot, now: nat, from: string): Session {
    if !s.open || !s.phase.Ready? || s.account.None? then s
    else
      var t := StillAuthorized(s, current, now);
      if !t.open then t
      else if !Allows(PolicyFor(t.snap, t.account.value.username).senders, from) then t
      else t.(from := from, to := [], mailed := true, mailedAt := now)
  }

  function DoRcpt(s: Session, to: string): Session {
    if !s.open || !s.phase.Ready? || !s.mailed || s.account.None? then s else s.(to := s.to + [to])
  }

  function DoReset(s: Session): Session {
    if !s.open || !s.phase.Ready? then s else Reset(s)
  }

  function BeginData(s: Session, current: Snapshot, now: nat): Session {
    if !s.open || !s.phase.Ready? || !s.mailed || s.account.None? || s.to == [] then s
    else
      var t := StillAuthorized(s, current, now);
      if !t.open then t else t.(phase := Counting(now, CountedDims(t.snap.limiter, |t.to|), map[]))
  }

  // An increment is due.
  predicate Due(s: Session) {
    s.phase.Counting? && s.phase.dims != [] && s.account.Some? && s.snap.limiter.Some?
  }

  /** The increment a session owes its store. */
  function Charge(s: Session, clock: nat, at: nat): Quota.Command
    requires Due(s)
  {
    var d := s.phase.dims[0];
    Quota.IncrBy(s.snap.limiter.value.gateway, s.account.value.username, d, clock, at, Amount(|s.to|, d))
  }

  // The increment runs: a connection closed by a reload carries nothing.
  predicate Reaches(s: Session, closed: multiset<nat>, fate: Quota.Fate) {
    Due(s) && s.snap.limiter.value.client !in closed && !fate.NothingRan?
  }

  /** One increment. Whatever keeps its answer from coming back refuses the
      message. */
  function DoIncr(s: Session, closed: multiset<nat>, log: seq<Quota.Command>, clock: nat, at: nat,
                  fate: Quota.Fate): Session
  {
    if !Due(s) then s
    else if !Reaches(s, closed, fate) || fate.IncrRan? then Reset(s)
    else
      var answer := Quota.Answer(Quota.Run(log), Charge(s, clock, at));
      s.(phase := Expiring(s.phase.at, s.phase.dims, s.phase.counts, |log|, clock,
                           if fate.Answered? then Some(answer) else None))
  }

  // An expiry is to be set.
  predicate Owing(s: Session) {
    s.phase.Expiring? && s.phase.dims != [] && s.account.Some? && s.snap.limiter.Some?
  }

  function Expiry(s: Session, at: nat): Quota.Command
    requires Owing(s)
  {
    Quota.ExpireNX(s.snap.limiter.value.gateway, s.account.value.username, s.phase.dims[0], s.phase.clock, at)
  }

  /** The answer against the limit. */
  function DoExpire(s: Session): Session {
    if !Owing(s) then s
    else
      var d := s.phase.dims[0];
      if s.phase.reply.None? || s.phase.reply.value > Quota.LimitFor(s.snap.limiter.value.limit.limits, d) then Reset(s)
      else s.(phase := Counting(s.phase.at, s.phase.dims[1..], s.phase.counts[d := s.phase.pending]))
  }

  datatype Arrival = Arrival(ehlo: string, remote: string, date: string, content: string)

  /** The message as the relay writes it down. */
  function Written(snap: Snapshot, u: string, a: Arrival): string {
    ReceivedHeader(a.ehlo, a.remote, snap.config.hostname, u, a.date) + a.content
  }

  predicate FromOk(policy: AccountPolicy, body: string) {
    policy.skipHeaderFromCheck || CheckFrom(body, policy.senders).None?
  }

  predicate Counted(s: Session) {
    s.phase.Counting? && s.phase.dims == [] && s.account.Some?
  }

  function DoBody(s: Session, a: Arrival): Session {
    if !Counted(s) then s
    else
      var body := Written(s.snap, s.account.value.username, a);
      if FromOk(PolicyFor(s.snap, s.account.value.username), body)
      then s.(phase := Checked(s.phase.at, s.phase.counts, body)) else Reset(s)
  }

  // The body could not be read or buffered.
  function DoDrop(s: Session): Session {
    if Counted(s) then Reset(s) else s
  }

  /** A message handed to the upstream, with its history. */
  datatype Delivery = Delivery(
    conn: nat,
    account: string,
    login: Login,
    from: string,
    to: seq<string>,
    mailedAt: nat,
    begunAt: nat,
    limiter: Option<Limiter>,
    counts: map<Dimension, nat>,
    body: string,
    behave: nat -> Milter.Behaviour,
    filtered: Milter.Filtered,
    sent: Milter.Mail,
    signedFor: Option<string>)

  /** The message held by a session, once it is checked. */
  function Held(s: Session): Milter.Mail
    requires s.phase.Checked?
  {
    Milter.Mail(s.from, s.to, s.phase.body)
  }

  /** `f` is what the filters of the snapshot adopted at DATA make of a message,
      behaving as they do. */
  ghost predicate Through(snap: Snapshot, mail: Milter.Mail, behave: nat -> Milter.Behaviour, f: Milter.Filtered) {
    Milter.Yields(mail, Milter.Met(snap.config.filters, behave), f)
  }

  ghost function Send(conn: nat, s: Session, behave: nat -> Milter.Behaviour, f: Milter.Filtered): Option<Delivery> {
    if !s.phase.Checked? || s.account.None? || f.Stopped? || !Through(s.snap, Held(s), behave, f) then None
    else
      var sent := if f.NoFilters? then Held(s) else f.mail;
      var u := s.account.value.username;
      Some(Delivery(conn, u, s.login, s.from, s.to, s.mailedAt, s.phase.at, s.snap.limiter, s.phase.counts,
                    s.phase.body, behave, f, sent,
                    SignedFor(s.snap.config.keys, PolicyFor(s.snap, u).senders, sent.from, sent.body)))
  }

  function DoSend(s: Session): Session {
    if s.phase.Checked? then Reset(s) else s
  }

  // ---------- The machine ----------

  /** How a reload ends. `FailedLate` is a failure after the limiter was built,
      whose new connection is then never closed. */
  datatype ReloadResult = Loaded | FailedEarly | FailedLate

  /** `Others` are commands of other replicas, or late ones, reaching a store. */
  datatype Event =
    | Reload(cfg: Config, result: ReloadResult)
    | Others(server: nat, cmds: seq<Quota.Command>)
    | Connect(conn: nat)
    | AuthBegin(conn: nat, username: string, password: string)
    | AuthEnd(conn: nat)
    | Mail(conn: nat, from: string)
    | Rcpt(conn: nat, to: string)
    | Rset(conn: nat)
    | DataBegin(conn: nat)
    | DataIncr(conn: nat, clock: nat, at: nat, fate: Quota.Fate)
    | DataExpire(conn: nat, at: nat)
    | DataBody(conn: nat, arrival: Arrival)
    | DataDrop(conn: nat)
    | DataSend(conn: nat, behave: nat -> Milter.Behaviour, filtered: Milter.Filtered)
  {
    predicate OfSession() {
      !Reload? && !Others?
    }
  }

  /** `history[t]` is the snapshot in service at step `t`; `dialled` says which
      store each connection was made to, `inService` which connections have
      belonged to the snapshot in service, and `tickets` which DATA each
      increment of this relay was made for, by its place in a store's log. */
  datatype State = State(
    current: Snapshot,
    clients: nat,
    dialled: map<nat, StoreConfig>,
    closed: multiset<nat>,
    inService: set<nat>,
    sessions: map<nat, Session>,
    history: seq<Snapshot>,
    logs: Logs,
    tickets: map<(nat, nat), (nat, nat)>,
    relayed: seq<Delivery>)

  function Slots(env: Env): nat {
    if env.procs <= 2 then 1 else env.procs - 1
  }

  ghost function Verifiers(s: State): set<nat> {
    set c | c in s.sessions && s.sessions[c].phase.Verifying?
  }

  function ClientOf(snap: Snapshot): set<nat> {
    if snap.limiter.None? then {} else {snap.limiter.value.client}
  }

  // A connection is made when the snapshot's limiter is a new one.
  function Dial(dialled: map<nat, StoreConfig>, snap: Snapshot, client: nat): map<nat, StoreConfig> {
    if snap.limiter.Some? && snap.limiter.value.client == client
    then dialled[client := snap.limiter.value.limit.store] else dialled
  }

  // Swapping in a snapshot closes the connection it does not keep.
  function Swap(env: Env, s: State, cfg: Config): State {
    var snap := BuildSnapshot(env, cfg, Some(s.current), s.clients);
    var dropped := ClientOf(s.current) - ClientOf(snap);
    s.(current := snap, clients := s.clients + 1, dialled := Dial(s.dialled, snap, s.clients),
       closed := s.closed + multiset(dropped), inService := s.inService + ClientOf(snap))
  }

  function DoReload(env: Env, s: State, cfg: Config, result: ReloadResult): State {
    match result
    case Loaded => Swap(env, s, cfg)
    case FailedEarly => s
    case FailedLate => s.(clients := s.clients + 1)
  }

  function Update(s: State, c: nat, t: Session): State {
    s.(sessions := s.sessions[c := t])
  }

  // The log a session's increments go to.
  function LogFor(env: Env, logs: Logs, s: Session): seq<Quota.Command> {
    if s.snap.limiter.None? then [] else LogOf(logs, env.server(s.snap.limiter.value.limit.store))
  }

  // The session an event changes, and what it becomes.
  function After(env: Env, s: State, e: Event): Session
    requires e.OfSession() && (e.Connect? || e.conn in s.sessions)
  {
    var now := |s.history|;
    match e
    case Connect(_) => NewSession(s.current, now)
    case AuthBegin(c, u, p) => BeginAuth(s.sessions[c], u, p, now)
    case AuthEnd(c) => EndAuth(env, s.sessions[c], now)
    case Mail(c, from) => DoMail(s.sessions[c], s.current, now, from)
    case Rcpt(c, to) => DoRcpt(s.sessions[c], to)
    case Rset(c) => DoReset(s.sessions[c])
    case DataBegin(c) => BeginData(s.sessions[c], s.current, now)
    case DataIncr(c, clock, at, fate) =>
      DoIncr(s.sessions[c], s.closed, LogFor(env, s.logs, s.sessions[c]), clock, at, fate)
    case DataExpire(c, _) => DoExpire(s.sessions[c])
    case DataBody(c, a) => DoBody(s.sessions[c], a)
    case DataDrop(c) => DoDrop(s.sessions[c])
    case DataSend(c, _, _) => DoSend(s.sessions[c])
  }

  /** The event finds its session, and a slot if it starts a password check. */
  ghost predicate Enters(env: Env, s: State, e: Event)
    requires e.OfSession()
  {
    if e.Connect? then e.conn !in s.sessions
    else e.conn in s.sessions && (e.AuthBegin? && MayVerify(s.sessions[e.conn]) ==> |Verifiers(s)| < Slots(env))
  }

  /** The commands an event brings to a store. */
  function Writes(env: Env, s: State, e: Event): (nat, seq<Quota.Command>) {
    match e
    case Others(k, cmds) => (k, cmds)
    case DataIncr(c, clock, at, fate) =>
      if c in s.sessions && Reaches(s.sessions[c], s.closed, fate)
      then (env.server(s.sessions[c].snap.limiter.value.limit.store), [Charge(s.sessions[c], clock, at)]) else (0, [])
    case DataExpire(c, at) =>
      if c in s.sessions && Owing(s.sessions[c])
      then (env.server(s.sessions[c].snap.limiter.value.limit.store), [Expiry(s.sessions[c], at)]) else (0, [])
    case _ => (0, [])
  }

  // Each increment of this relay is noted with the DATA it was made for.
  function Stub(env: Env, s: State, e: Event): map<(nat, nat), (nat, nat)> {
    if e.DataIncr? && Writes(env, s, e).1 != [] && e.conn in s.sessions && s.sessions[e.conn].phase.Counting?
    then
      var k := Writes(env, s, e).0;
      s.tickets[(k, |LogOf(s.logs, k)|) := (e.conn, s.sessions[e.conn].phase.at)]
    else s.tickets
  }

  ghost function Deliveries(s: State, e: Event): seq<Delivery> {
    if e.DataSend? && e.conn in s.sessions && Send(e.conn, s.sessions[e.conn], e.behave, e.filtered).Some?
    then [Send(e.conn, s.sessions[e.conn], e.behave, e.filtered).value] else []
  }

  /** What an event does to the snapshot and the sessions. */
  ghost function React(env: Env, s: State, e: Event): State {
    if e.Reload? then DoReload(env, s, e.cfg, e.result)
    else if e.OfSession() && Enters(env, s, e) then Update(s, e.conn, After(env, s, e))
    else s
  }

  /** One step: events the SMTP library would not let through change nothing. */
  ghost function Next(env: Env, s: State, e: Event): State {
    var (k, cmds) := Writes(env, s, e);
    React(env, s, e).(logs := Append(s.logs, k, cmds), tickets := Stub(env, s, e),
                      relayed := s.relayed + Deliveries(s, e), history := s.history + [s.current])
  }

  ghost function RunFrom(env: Env, s: State, events: seq<Event>): State {
    if events == [] then s else Next(env, RunFrom(env, s, events[..|events| - 1]), events[|events| - 1])
  }

  /** A relay that has loaded its first configuration. */
  function Start(env: Env, cfg: Config): State {
    var snap := BuildSnapshot(env, cfg, None, 0);
    State(snap, 1, Dial(map[], snap, 0), multiset{}, ClientOf(snap), map[], [], map[], map[], [])
  }

  // ---------- What every run keeps ----------

  /** The session showed the password its account had in the snapshot it was
      connected under. */
  predicate LoginOk(env: Env, h: seq<Snapshot>, u: string, l: Login) {
    && l.born < l.begun < l.ended < |h| && Enabled(h[l.born], u)
    && env.verify(h[l.born].accounts[u].passwordHash, l.password)
  }

  predicate MailedOk(h: seq<Snapshot>, t: nat, u: string, from: string) {
    t < |h| && Allows(PolicyFor(h[t], u).senders, from)
  }

  /** Position `p` of the store's log holds the increment for `d` of a message
      from `u` to `n` recipients. */
  predicate Placed(env: Env, logs: Logs, l: Limiter, u: string, n: nat, d: Dimension, p: nat) {
    var log := LogOf(logs, env.server(l.limit.store));
    p < |log| && log[p].IncrBy? && log[p].gateway == l.gateway && log[p].account == u
    && log[p].dimension == d && log[p].amount == Amount(n, d)
  }

  /** And the store answered it within the limit. */
  predicate Admitted(env: Env, logs: Logs, l: Limiter, u: string, n: nat, d: Dimension, p: nat) {
    Placed(env, logs, l, u, n, d, p)
    && Quota.AnswerAt(LogOf(logs, env.server(l.limit.store)), p) <= Quota.LimitFor(l.limit.limits, d)
  }

  /** All but the last dimensions were counted, each within its limit. */
  predicate Tallied(env: Env, logs: Logs, limiter: Option<Limiter>, u: string, n: nat, dims: seq<Dimension>,
                    counts: map<Dimension, nat>)
  {
    var all := CountedDims(limiter, n);
    && |dims| <= |all| && dims == all[|all| - |dims|..]
    && (forall d :: d in counts <==> d in all[..|all| - |dims|])
    && (forall d | d in counts :: limiter.Some? && Admitted(env, logs, limiter.value, u, n, d, counts[d]))
  }

  predicate BegunOk(h: seq<Snapshot>, s: Session, at: nat) {
    s.mailed && s.account.Some? && s.mailedAt < at < |h| && s.snap == h[at] && s.to != []
  }

  predicate PhaseOk(env: Env, h: seq<Snapshot>, logs: Logs, s: Session) {
    match s.phase
    case Ready => true
    case Verifying(_, _) => s.account.None? && s.failures < MAX_AUTH_FAILURES && s.login.born < s.login.begun < |h|
    case Counting(at, dims, counts) =>
      BegunOk(h, s, at) && Tallied(env, logs, s.snap.limiter, s.account.value.username, |s.to|, dims, counts)
    case Expiring(at, dims, counts, pending, clock, reply) =>
      BegunOk(h, s, at) && dims != [] && s.snap.limiter.Some?
      && Tallied(env, logs, s.snap.limiter, s.account.value.username, |s.to|, dims, counts)
      && Placed(env, logs, s.snap.limiter.value, s.account.value.username, |s.to|, dims[0], pending)
      && (reply.Some? ==> reply.value == Quota.AnswerAt(LogFor(env, logs, s), pending))
    case Checked(at, counts, body) =>
      BegunOk(h, s, at) && Tallied(env, logs, s.snap.limiter, s.account.value.username, |s.to|, [], counts)
      && FromOk(PolicyFor(s.snap, s.account.value.username), body)
  }

  predicate AccountOk(env: Env, h: seq<Snapshot>, s: Session) {
    if s.account.None? then s.snapAt == s.login.born
    else
      var u := s.account.value.username;
      LoginOk(env, h, u, s.login) && Enabled(s.snap, u) && s.snap.accounts[u] == s.account.value
  }

  predicate SessionOk(env: Env, h: seq<Snapshot>, logs: Logs, s: Session) {
    && s.snapAt < |h| && s.snap == h[s.snapAt] && s.login.born < |h|
    && AccountOk(env, h, s)
    && (s.mailed ==> s.account.Some? && s.login.ended < s.mailedAt
                     && MailedOk(h, s.mailedAt, s.account.value.username, s.from))
    && PhaseOk(env, h, logs, s)
    && s.failures <= MAX_AUTH_FAILURES
    && s.verifications == s.failures + (if s.account.Some? then 1 else 0) + (if s.phase.Verifying? then 1 else 0)
    && s.verifications <= MAX_AUTH_FAILURES
  }

  /** What left is what the filters in force made of what was submitted. */
  ghost predicate FilteredOk(snap: Snapshot, d: Delivery) {
    var mail := Milter.Mail(d.from, d.to, d.body);
    && Through(snap, mail, d.behave, d.filtered)
    && !d.filtered.Stopped? && d.sent == if d.filtered.Left? then d.filtered.mail else mail
  }

  /** What is promised of a message handed to the upstream. */
  ghost predicate DeliveryOk(env: Env, h: seq<Snapshot>, logs: Logs, d: Delivery) {
    && d.login.ended < d.mailedAt < d.begunAt < |h|
    && LoginOk(env, h, d.account, d.login)
    && Enabled(h[d.begunAt], d.account) && d.to != []
    && Allows(PolicyFor(h[d.mailedAt], d.account).senders, d.from)
    && FromOk(PolicyFor(h[d.begunAt], d.account), d.body)
    && d.limiter == h[d.begunAt].limiter
    && Tallied(env, logs, d.limiter, d.account, |d.to|, [], d.counts)
    && FilteredOk(h[d.begunAt], d)
    && d.signedFor == SignedFor(h[d.begunAt].config.keys, PolicyFor(h[d.begunAt], d.account).senders, d.sent.from,
                                d.sent.body)
  }

  // ---------- Logs only grow ----------

  lemma PlacedKept(env: Env, logs: Logs, k: nat, cmds: seq<Quota.Command>, l: Limiter, u: string, n: nat,
                   d: Dimension, p: nat)
    requires Placed(env, logs, l, u, n, d, p)
    ensures var after := Append(logs, k, cmds);
            Placed(env, after, l, u, n, d, p)
            && var j := env.server(l.limit.store);
               Quota.AnswerAt(LogOf(after, j), p) == Quota.AnswerAt(LogOf(logs, j), p)
  {
    hide Append, LogOf;
    var j := env.server(l.limit.store);
    LogOfAppend(logs, k, cmds, j);
    assert LogOf(Append(logs, k, cmds), j)[..p] == LogOf(logs, j)[..p];
  }

  lemma TalliedKept(env: Env, logs: Logs, k: nat, cmds: seq<Quota.Command>, limiter: Option<Limiter>, u: string, n: nat,
                    dims: seq<Dimension>, counts: map<Dimension, nat>)
    requires Tallied(env, logs, limiter, u, n, dims, counts)
    ensures Tallied(env, Append(logs, k, cmds), limiter, u, n, dims, counts)
  {
    hide Append, LogOf, CountedDims, Placed, Quota.AnswerAt;
    forall d | d in counts
      ensures limiter.Some? && Admitted(env, Append(logs, k, cmds), limiter.value, u, n, d, counts[d])
    {
      PlacedKept(env, logs, k, cmds, limiter.value, u, n, d, counts[d]);
    }
  }

  lemma PhaseKept(env: Env, h: seq<Snapshot>, x: Snapshot, logs: Logs, k: nat, cmds: seq<Quota.Command>, s: Session)
    requires PhaseOk(env, h, logs, s)
    ensures PhaseOk(env, h + [x], Append(logs, k, cmds), s)
  {
    hide Append, LogOf, Tallied, Placed, FromOk, PolicyFor, Quota.AnswerAt;
    match s.phase
    case Ready =>
    case Verifying(_, _) =>
    case Counting(at, dims, counts) =>
      TalliedKept(env, logs, k, cmds, s.snap.limiter, s.account.value.username, |s.to|, dims, counts);
    case Expiring(at, dims, counts, pending, _, _) =>
      TalliedKept(env, logs, k, cmds, s.snap.limiter, s.account.value.username, |s.to|, dims, counts);
      PlacedKept(env, logs, k, cmds, s.snap.limiter.value, s.account.value.username, |s.to|, dims[0], pending);
    case Checked(at, counts, _) =>
      TalliedKept(env, logs, k, cmds, s.snap.limiter, s.account.value.username, |s.to|, [], counts);
  }

  // Sessions take the snapshot of the step they act in, which is only then
  // appended to the history: `h` is the history after the step.
  lemma SessionKept(env: Env, h: seq<Snapshot>, x: Snapshot, logs: Logs, k: nat, cmds: seq<Quota.Command>, s: Session)
    requires SessionOk(env, h, logs, s)
    ensures SessionOk(env, h + [x], Append(logs, k, cmds), s)
  {
    hide Enabled, PhaseOk, Append, Allows, PolicyFor;
    PhaseKept(env, h, x, logs, k, cmds, s);
  }

  lemma SessionGrows(env: Env, h: seq<Snapshot>, x: Snapshot, logs: Logs, s: Session)
    requires SessionOk(env, h, logs, s)
    ensures SessionOk(env, h + [x], logs, s)
  {
    hide SessionOk;
    SessionKept(env, h, x, logs, 0, [], s);
    assert Append(logs, 0, []) == logs;
  }

  lemma DeliveryKept(env: Env, h: seq<Snapshot>, x: Snapshot, logs: Logs, k: nat, cmds: seq<Quota.Command>, d: Delivery)
    requires DeliveryOk(env, h, logs, d)
    ensures DeliveryOk(env, h + [x], Append(logs, k, cmds), d)
  {
    hide Enabled, FromOk, Allows, CanSign, PolicyFor, Append, Tallied, FilteredOk;
    TalliedKept(env, logs, k, cmds, d.limiter, d.account, |d.to|, [], d.counts);
  }

  // ---------- One session's steps ----------

  lemma KeepStillAuthorized(env: Env, h: seq<Snapshot>, cur: Snapshot, logs: Logs, s: Session)
    requires SessionOk(env, h, logs, s) && WellBuilt(cur) && s.open && s.phase.Ready? && s.account.Some?
    ensures var t := StillAuthorized(s, cur, |h|);
            && SessionOk(env, h + [cur], logs, t) && t.phase.Ready?
            && (t.open ==> t.snap == cur && t.account.Some? && t.account.value.username == s.account.value.username
                           && t.mailed == s.mailed && t.mailedAt == s.mailedAt && t.to == s.to && t.login == s.login)
  {
    hide Tallied, FromOk, Allows, PolicyFor, PolicyOf;
    SessionGrows(env, h, cur, logs, s);
    assert (h + [cur])[|h|] == cur;
    if Enabled(cur, s.account.value.username) {
      assert cur.accounts[s.account.value.username].username == s.account.value.username;
    }
  }

  lemma KeepMail(env: Env, h: seq<Snapshot>, cur: Snapshot, logs: Logs, s: Session, from: string)
    requires SessionOk(env, h, logs, s) && WellBuilt(cur)
    ensures SessionOk(env, h + [cur], logs, DoMail(s, cur, |h|, from))
  {
    hide Tallied, FromOk, Allows, PolicyFor, Enabled, StillAuthorized, WellBuilt, LoginOk;
    SessionGrows(env, h, cur, logs, s);
    if s.open && s.phase.Ready? && s.account.Some? {
      KeepStillAuthorized(env, h, cur, logs, s);
      LoginBefore(env, h, s);
      assert (h + [cur])[|h|] == cur;
    }
  }

  lemma LoginBefore(env: Env, h: seq<Snapshot>, s: Session)
    requires AccountOk(env, h, s) && s.account.Some?
    ensures s.login.ended < |h|
  {
  }

  lemma TallyOfNothing(env: Env, logs: Logs, limiter: Option<Limiter>, u: string, n: nat)
    ensures Tallied(env, logs, limiter, u, n, CountedDims(limiter, n), map[])
  {
    hide CountedDims, Admitted;
    var all := CountedDims(limiter, n);
    assert all[..0] == [] && all[0..] == all;
  }

  lemma KeepBeginData(env: Env, h: seq<Snapshot>, cur: Snapshot, logs: Logs, s: Session)
    requires SessionOk(env, h, logs, s) && WellBuilt(cur)
    ensures SessionOk(env, h + [cur], logs, BeginData(s, cur, |h|))
  {
    hide Tallied, FromOk, Allows, PolicyFor, Enabled, StillAuthorized, WellBuilt, LoginOk, CountedDims;
    SessionGrows(env, h, cur, logs, s);
    if s.open && s.phase.Ready? && s.account.Some? {
      KeepStillAuthorized(env, h, cur, logs, s);
      assert (h + [cur])[|h|] == cur;
      var t := StillAuthorized(s, cur, |h|);
      if t.open {
        TallyOfNothing(env, logs, cur.limiter, t.account.value.username, |t.to|);
      }
    }
  }

  lemma KeepBeginAuth(env: Env, h: seq<Snapshot>, cur: Snapshot, logs: Logs, s: Session, u: string, p: string)
    requires SessionOk(env, h, logs, s)
    ensures SessionOk(env, h + [cur], logs, BeginAuth(s, u, p, |h|))
  {
    hide Tallied, FromOk, Allows, PolicyFor, Enabled, LoginOk;
    SessionGrows(env, h, cur, logs, s);
  }

  lemma KeepEndAuth(env: Env, h: seq<Snapshot>, cur: Snapshot, logs: Logs, s: Session)
    requires SessionOk(env, h, logs, s) && forall x | x in h :: WellBuilt(x)
    ensures SessionOk(env, h + [cur], logs, EndAuth(env, s, |h|))
  {
    hide Tallied, FromOk, Allows, PolicyFor, PolicyOf;
    SessionGrows(env, h, cur, logs, s);
    assert WellBuilt(h[s.snapAt]);
  }

  lemma KeepSmall(env: Env, h: seq<Snapshot>, cur: Snapshot, logs: Logs, s: Session, to: string, a: Arrival)
    requires SessionOk(env, h, logs, s)
    ensures SessionOk(env, h + [cur], logs, DoRcpt(s, to))
    ensures SessionOk(env, h + [cur], logs, DoReset(s))
    ensures SessionOk(env, h + [cur], logs, DoBody(s, a))
    ensures SessionOk(env, h + [cur], logs, DoDrop(s))
    ensures SessionOk(env, h + [cur], logs, DoSend(s))
  {
    hide Tallied, FromOk, Allows, PolicyFor, Enabled, Written, LoginOk;
    SessionGrows(env, h, cur, logs, s);
  }

  // The increment a session has just made.
  lemma ChargePlaced(env: Env, logs: Logs, s: Session, clock: nat, at: nat)
    requires Due(s)
    ensures var l := s.snap.limiter.value;
            var k := env.server(l.limit.store);
            var after := Append(logs, k, [Charge(s, clock, at)]);
            && Placed(env, after, l, s.account.value.username, |s.to|, s.phase.dims[0], |LogOf(logs, k)|)
            && Quota.AnswerAt(LogOf(after, k), |LogOf(logs, k)|)
               == Quota.Answer(Quota.Run(LogOf(logs, k)), Charge(s, clock, at))
  {
    hide Append, LogOf, Quota.Answer, Quota.Run;
    var k := env.server(s.snap.limiter.value.limit.store);
    LogOfAppend(logs, k, [Charge(s, clock, at)], k);
    var log := LogOf(logs, k);
    assert (log + [Charge(s, clock, at)])[..|log|] == log;
  }

  lemma KeepIncr(env: Env, h: seq<Snapshot>, cur: Snapshot, logs: Logs, closed: multiset<nat>, s: Session,
                 clock: nat, at: nat, fate: Quota.Fate, k: nat, cmds: seq<Quota.Command>)
    requires SessionOk(env, h, logs, s)
    requires Reaches(s, closed, fate) ==>
               k == env.server(s.snap.limiter.value.limit.store) && cmds == [Charge(s, clock, at)]
    ensures SessionOk(env, h + [cur], Append(logs, k, cmds), DoIncr(s, closed, LogFor(env, logs, s), clock, at, fate))
  {
    hide Tallied, FromOk, Allows, PolicyFor, Enabled, LoginOk, Append, Placed, Charge, Quota.Answer, Quota.AnswerAt,
         LogOf;
    SessionKept(env, h, cur, logs, k, cmds, s);
    if Reaches(s, closed, fate) {
      ChargePlaced(env, logs, s, clock, at);
    }
  }

  // One more dimension counted within its limit.
  lemma TallyNext(env: Env, logs: Logs, l: Limiter, u: string, n: nat, dims: seq<Dimension>,
                  counts: map<Dimension, nat>, p: nat)
    requires dims != [] && Tallied(env, logs, Some(l), u, n, dims, counts) && Admitted(env, logs, l, u, n, dims[0], p)
    ensures Tallied(env, logs, Some(l), u, n, dims[1..], counts[dims[0] := p])
  {
    hide CountedDims, Admitted;
    var all := CountedDims(Some(l), n);
    var m := |all| - |dims|;
    assert dims[0] == all[m] && dims[1..] == all[m + 1..];
    assert all[..m + 1] == all[..m] + [all[m]];
  }

  lemma KeepExpire(env: Env, h: seq<Snapshot>, cur: Snapshot, logs: Logs, s: Session, k: nat, cmds: seq<Quota.Command>)
    requires SessionOk(env, h, logs, s)
    ensures SessionOk(env, h + [cur], Append(logs, k, cmds), DoExpire(s))
  {
    hide Tallied, FromOk, Allows, PolicyFor, Enabled, LoginOk, Append, Placed, Quota.AnswerAt, LogOf;
    SessionKept(env, h, cur, logs, k, cmds, s);
    if Owing(s) && s.phase.reply.Some? {
      var d, after := s.phase.dims[0], Append(logs, k, cmds);
      if s.phase.reply.value <= Quota.LimitFor(s.snap.limiter.value.limit.limits, d) {
        TallyNext(env, after, s.snap.limiter.value, s.account.value.username, |s.to|, s.phase.dims, s.phase.counts,
                  s.phase.pending);
      }
    }
  }

  lemma SendIsOk(env: Env, h: seq<Snapshot>, cur: Snapshot, logs: Logs, c: nat, s: Session,
                 behave: nat -> Milter.Behaviour, f: Milter.Filtered)
    requires SessionOk(env, h, logs, s) && Send(c, s, behave, f).Some?
    ensures DeliveryOk(env, h + [cur], logs, Send(c, s, behave, f).value)
  {
    hide Tallied, FromOk, Allows, CanSign, KeyDomain, Through;
  }

  // ---------- The invariant ----------

  /** The connection in service is open and was made to the store the
      configuration names; every other connection that has been in service was
      closed, exactly once. */
  predicate ClientsOk(s: State) {
    && (forall x | x in s.inService :: x < s.clients)
    && ClientOf(s.current) <= s.inService
    && s.closed == multiset(s.inService - ClientOf(s.current))
    && (s.current.limiter.Some? ==>
          s.current.limiter.value.client in s.dialled && s.current.config.rateLimit.Some?
          && s.dialled[s.current.limiter.value.client] == s.current.config.rateLimit.value.store)
  }

  ghost predicate SessionsOk(env: Env, s: State) {
    forall c | c in s.sessions :: SessionOk(env, s.history, s.logs, s.sessions[c])
  }

  ghost predicate RelayedOk(env: Env, s: State) {
    forall i :: 0 <= i < |s.relayed| ==> DeliveryOk(env, s.history, s.logs, s.relayed[i])
  }

  ghost predicate Inv(env: Env, s: State) {
    && WellBuilt(s.current) && (forall x | x in s.history :: WellBuilt(x))
    && ClientsOk(s)
    && SessionsOk(env, s)
    && RelayedOk(env, s)
    && |Verifiers(s)| <= Slots(env)
  }

  /** A limiter counts for the gateway under the limits configured, and its
      connection is reused exactly for a store equal in every field. */
  lemma BuiltLimiter(env: Env, cfg: Config, prev: Option<Snapshot>, client: nat)
    ensures var l := BuildSnapshot(env, cfg, prev, client).limiter;
            && (l.None? <==> cfg.rateLimit.None?)
            && (l.Some? ==>
                  && l.value.limit == cfg.rateLimit.value && l.value.gateway == cfg.hostname
                  && l.value.client == if prev.Some? && prev.value.limiter.Some?
                                          && prev.value.limiter.value.limit.store == cfg.rateLimit.value.store
                                       then prev.value.limiter.value.client else client)
  {
    hide Served, ByUsername, PolicyOf;
  }

  lemma Reclosed(inService: set<nat>, was: set<nat>, now: set<nat>, closed: multiset<nat>)
    requires was <= inService && closed == multiset(inService - was) && (now <= was || now !! inService)
    ensures closed + multiset(was - now) == multiset(inService + now - now)
  {
    assert inService + now - now == (inService - was) + (was - now);
    assert (inService - was) !! (was - now);
  }

  lemma SwapKeepsClients(env: Env, s: State, cfg: Config)
    requires ClientsOk(s) && WellBuilt(s.current)
    ensures ClientsOk(Swap(env, s, cfg))
  {
    hide BuildSnapshot, PolicyOf;
    BuiltLimiter(env, cfg, Some(s.current), s.clients);
    ConfigOf(env, cfg, Some(s.current), s.clients);
    var t := Swap(env, s, cfg);
    Reclosed(s.inService, ClientOf(s.current), ClientOf(t.current), s.closed);
  }

  lemma ConfigOf(env: Env, cfg: Config, prev: Option<Snapshot>, client: nat)
    ensures BuildSnapshot(env, cfg, prev, client).config == cfg
  {
  }

  lemma StartIsOk(env: Env, cfg: Config)
    ensures Inv(env, Start(env, cfg))
  {
    SnapshotIsWellBuilt(env, cfg, None, 0);
    hide BuildSnapshot, WellBuilt;
    var s := Start(env, cfg);
    assert Verifiers(s) == {};
    assert s.inService - ClientOf(s.current) == {};
    StartDials(env, cfg);
  }

  lemma StartDials(env: Env, cfg: Config)
    ensures ClientsOk(Start(env, cfg))
  {
    SnapshotIsWellBuilt(env, cfg, None, 0);
    hide Served, ByUsername, PolicyOf;
    var s := Start(env, cfg);
    assert s.inService - ClientOf(s.current) == {};
  }

  lemma VerifiersUpdate(s: State, c: nat, t: Session)
    ensures Verifiers(Update(s, c, t)) == if t.phase.Verifying? then Verifiers(s) + {c} else Verifiers(s) - {c}
  {
  }

  lemma ClientsIgnoreSessions(s: State, n: State)
    requires ClientsOk(s)
    requires n.current == s.current && n.clients >= s.clients && n.dialled == s.dialled
    requires n.closed == s.closed && n.inService == s.inService
    ensures ClientsOk(n)
  {
  }

  // What was relayed stays as it was promised.
  lemma RelayedKept(env: Env, s: State, n: State, k: nat, cmds: seq<Quota.Command>)
    requires RelayedOk(env, s)
    requires n.history == s.history + [s.current] && n.logs == Append(s.logs, k, cmds) && n.relayed == s.relayed
    ensures RelayedOk(env, n)
  {
    hide DeliveryOk, Append;
    forall i | 0 <= i < |n.relayed| ensures DeliveryOk(env, n.history, n.logs, n.relayed[i]) {
      DeliveryKept(env, s.history, s.current, s.logs, k, cmds, s.relayed[i]);
    }
  }

  // A step that gives session `c` a new value keeps the whole invariant.
  lemma UpdateKeeps(env: Env, s: State, n: State, c: nat, t: Session, k: nat, cmds: seq<Quota.Command>)
    requires Inv(env, s) && SessionOk(env, s.history + [s.current], Append(s.logs, k, cmds), t)
    requires t.phase.Verifying? && c !in Verifiers(s) ==> |Verifiers(s)| < Slots(env)
    requires n == Update(s, c, t).(logs := Append(s.logs, k, cmds), tickets := n.tickets,
                                   history := s.history + [s.current])
    ensures Inv(env, n)
  {
    hide WellBuilt, SessionOk, RelayedOk, ClientsOk, Append;
    VerifiersUpdate(s, c, t);
    assert Verifiers(n) == Verifiers(Update(s, c, t));
    assert |Verifiers(n)| <= Slots(env);
    forall d | d in n.sessions ensures SessionOk(env, n.history, n.logs, n.sessions[d]) {
      if d != c {
        SessionKept(env, s.history, s.current, s.logs, k, cmds, s.sessions[d]);
      }
    }
    RelayedKept(env, s, n, k, cmds);
    ClientsIgnoreSessions(s, n);
  }

  // A step that changes no session.
  lemma GrowKeeps(env: Env, s: State, n: State, k: nat, cmds: seq<Quota.Command>)
    requires Inv(env, s) && WellBuilt(n.current) && ClientsOk(n)
    requires n.history == s.history + [s.current] && n.sessions == s.sessions
    requires n.logs == Append(s.logs, k, cmds) && n.relayed == s.relayed
    ensures Inv(env, n)
  {
    hide WellBuilt, SessionOk, RelayedOk, ClientsOk, Append;
    assert Verifiers(n) == Verifiers(s);
    forall d | d in n.sessions ensures SessionOk(env, n.history, n.logs, n.sessions[d]) {
      SessionKept(env, s.history, s.current, s.logs, k, cmds, s.sessions[d]);
    }
    RelayedKept(env, s, n, k, cmds);
  }

  lemma ReloadKeeps(env: Env, s: State, cfg: Config, result: ReloadResult)
    requires Inv(env, s)
    ensures Inv(env, Next(env, s, Reload(cfg, result)))
  {
    hide WellBuilt, SessionsOk, RelayedOk, Verifiers, ClientsOk, BuildSnapshot, ClientOf, Dial;
    SnapshotIsWellBuilt(env, cfg, Some(s.current), s.clients);
    ReloadClients(env, s, cfg, result);
    var n := Next(env, s, Reload(cfg, result));
    assert s.relayed + [] == s.relayed;
    GrowKeeps(env, s, n, 0, []);
  }

  lemma ReloadClients(env: Env, s: State, cfg: Config, result: ReloadResult)
    requires ClientsOk(s) && WellBuilt(s.current)
    ensures ClientsOk(Next(env, s, Reload(cfg, result)))
  {
    hide BuildSnapshot, PolicyOf, WellBuilt;
    SwapKeepsClients(env, s, cfg);
  }

  // Commands of others, or an event that finds no session: only logs and
  // history move.
  lemma StutterKeeps(env: Env, s: State, n: State, k: nat, cmds: seq<Quota.Command>)
    requires Inv(env, s)
    requires n == s.(logs := Append(s.logs, k, cmds), tickets := n.tickets, history := s.history + [s.current])
    ensures Inv(env, n)
  {
    hide WellBuilt, SessionsOk, RelayedOk, Verifiers, ClientsOk, Append;
    ClientsIgnoreSessions(s, n);
    GrowKeeps(env, s, n, k, cmds);
  }

  lemma WritesNothing(env: Env, s: State, e: Event)
    requires !e.Others? && !e.DataIncr? && !e.DataExpire?
    ensures Writes(env, s, e) == (0, []) && Append(s.logs, 0, []) == s.logs
  {
  }

  // Another event than an increment or an expiry.
  lemma PlainAfterIsOk(env: Env, s: State, e: Event)
    requires Inv(env, s) && e.OfSession() && (e.Connect? || e.conn in s.sessions) && !e.DataIncr? && !e.DataExpire?
    ensures SessionOk(env, s.history + [s.current], s.logs, After(env, s, e))
  {
    hide Enabled, Tallied, FromOk, Allows, PolicyFor, StillAuthorized, Written, LoginOk, RelayedOk, ClientsOk,
         WellBuilt;
    var h, cur, logs := s.history, s.current, s.logs;
    if !e.Connect? {
      assert SessionOk(env, h, logs, s.sessions[e.conn]);
    }
    hide SessionsOk, PhaseOk;
    match e
    case Connect(_) => ConnectIsOk(env, h, cur, logs);
    case AuthBegin(c, u, p) => KeepBeginAuth(env, h, cur, logs, s.sessions[c], u, p);
    case AuthEnd(c) => KeepEndAuth(env, h, cur, logs, s.sessions[c]);
    case Mail(c, from) => KeepMail(env, h, cur, logs, s.sessions[c], from);
    case Rcpt(c, to) => KeepSmall(env, h, cur, logs, s.sessions[c], to, NOTHING);
    case Rset(c) => KeepSmall(env, h, cur, logs, s.sessions[c], [], NOTHING);
    case DataBegin(c) => KeepBeginData(env, h, cur, logs, s.sessions[c]);
    case DataBody(c, a) => KeepSmall(env, h, cur, logs, s.sessions[c], [], a);
    case DataDrop(c) => KeepSmall(env, h, cur, logs, s.sessions[c], [], NOTHING);
    case DataSend(c, _, _) => KeepSmall(env, h, cur, logs, s.sessions[c], [], NOTHING);
  }

  const NOTHING := Arrival([], [], [], [])

  lemma ConnectIsOk(env: Env, h: seq<Snapshot>, cur: Snapshot, logs: Logs)
    ensures SessionOk(env, h + [cur], logs, NewSession(cur, |h|))
  {
  }

  lemma AfterIsOk(env: Env, s: State, e: Event)
    requires Inv(env, s) && e.OfSession() && (e.Connect? || e.conn in s.sessions)
    ensures var (k, cmds) := Writes(env, s, e);
            SessionOk(env, s.history + [s.current], Append(s.logs, k, cmds), After(env, s, e))
  {
    hide SessionOk, RelayedOk, ClientsOk, WellBuilt, Append, DoIncr, DoExpire, Charge, Expiry;
    if e.DataIncr? {
      var (k, cmds) := Writes(env, s, e);
      KeepIncr(env, s.history, s.current, s.logs, s.closed, s.sessions[e.conn], e.clock, e.at, e.fate, k, cmds);
    } else if e.DataExpire? {
      var (k, cmds) := Writes(env, s, e);
      KeepExpire(env, s.history, s.current, s.logs, s.sessions[e.conn], k, cmds);
    } else {
      WritesNothing(env, s, e);
      PlainAfterIsOk(env, s, e);
    }
  }

  // Only the start of a password check takes a slot.
  lemma AfterVerifies(env: Env, s: State, e: Event)
    requires e.OfSession() && Enters(env, s, e)
    requires After(env, s, e).phase.Verifying? && e.conn !in Verifiers(s)
    ensures |Verifiers(s)| < Slots(env)
  {
    hide Enabled, FromOk, Allows, PolicyFor, Written, CountedDims, Quota.Run, Quota.Answer, Slots;
  }

  lemma EnteringKeeps(env: Env, s: State, e: Event)
    requires Inv(env, s) && e.OfSession() && Enters(env, s, e) && Deliveries(s, e) == []
    ensures Inv(env, Next(env, s, e))
  {
    hide SessionOk, RelayedOk, WellBuilt, ClientsOk, After, Writes, Stub, Append, Inv;
    var t := After(env, s, e);
    var (k, cmds) := Writes(env, s, e);
    AfterIsOk(env, s, e);
    if t.phase.Verifying? && e.conn !in Verifiers(s) {
      AfterVerifies(env, s, e);
    }
    var n := Next(env, s, e);
    assert s.relayed + [] == s.relayed;
    UpdateKeeps(env, s, n, e.conn, t, k, cmds);
  }

  // Handing a message over adds one fate.
  lemma RelayKeeps(env: Env, m: State, d: Delivery)
    requires Inv(env, m) && DeliveryOk(env, m.history, m.logs, d)
    ensures Inv(env, m.(relayed := m.relayed + [d]))
  {
    hide WellBuilt, SessionOk, DeliveryOk, ClientsOk;
    var n := m.(relayed := m.relayed + [d]);
    ClientsIgnoreSessions(m, n);
    assert Verifiers(n) == Verifiers(m);
  }

  lemma AfterSend(env: Env, s: State, c: nat, behave: nat -> Milter.Behaviour, f: Milter.Filtered)
    requires c in s.sessions
    ensures var e := DataSend(c, behave, f);
            && Enters(env, s, e) && React(env, s, e) == Update(s, c, DoSend(s.sessions[c]))
            && Writes(env, s, e) == (0, []) && Stub(env, s, e) == s.tickets && Append(s.logs, 0, []) == s.logs
  {
    hide BeginAuth, EndAuth, DoMail, DoRcpt, DoReset, BeginData, DoIncr, DoExpire, DoBody, DoDrop, DoSend, Verifiers,
         Slots;
  }

  // Handing over is dropping the message and adding the delivery.
  lemma SendIsTwoSteps(env: Env, s: State, c: nat, behave: nat -> Milter.Behaviour, f: Milter.Filtered)
    requires c in s.sessions && Send(c, s.sessions[c], behave, f).Some?
    ensures var m := Next(env, s, DataSend(c, behave, Milter.Stopped));
            && Deliveries(s, DataSend(c, behave, Milter.Stopped)) == []
            && m.history == s.history + [s.current] && m.logs == s.logs
            && Next(env, s, DataSend(c, behave, f))
               == m.(relayed := m.relayed + [Send(c, s.sessions[c], behave, f).value])
  {
    hide React, Writes, Stub, Append, Enters, DoSend, SignedFor, Through;
    AfterSend(env, s, c, behave, f);
    AfterSend(env, s, c, behave, Milter.Stopped);
    assert Send(c, s.sessions[c], behave, Milter.Stopped).None?;
    hide Send;
    assert s.relayed + [] == s.relayed;
  }

  lemma SendKeeps(env: Env, s: State, c: nat, behave: nat -> Milter.Behaviour, f: Milter.Filtered)
    requires Inv(env, s) && c in s.sessions && Send(c, s.sessions[c], behave, f).Some?
    ensures Inv(env, Next(env, s, DataSend(c, behave, f)))
  {
    hide SessionOk, DeliveryOk, WellBuilt, ClientsOk, Send, RelayedOk, Verifiers, Next, Deliveries;
    assert SessionOk(env, s.history, s.logs, s.sessions[c]);
    hide Inv;
    SendIsTwoSteps(env, s, c, behave, f);
    EnteringKeeps(env, s, DataSend(c, behave, Milter.Stopped));
    SendIsOk(env, s.history, s.current, s.logs, c, s.sessions[c], behave, f);
    RelayKeeps(env, Next(env, s, DataSend(c, behave, Milter.Stopped)), Send(c, s.sessions[c], behave, f).value);
  }

  // An event that does not enter reaches no session and no store.
  lemma OutsideKeeps(env: Env, s: State, e: Event)
    requires Inv(env, s) && !e.Reload? && (e.OfSession() ==> !Enters(env, s, e))
    ensures Inv(env, Next(env, s, e))
  {
    hide Inv, Append;
    var (k, cmds) := Writes(env, s, e);
    assert Deliveries(s, e) == [];
    assert s.relayed + [] == s.relayed;
    StutterKeeps(env, s, Next(env, s, e), k, cmds);
  }

  lemma NextKeeps(env: Env, s: State, e: Event)
    requires Inv(env, s)
    ensures Inv(env, Next(env, s, e))
  {
    hide Inv, Next, Enters;
    if e.Reload? {
      ReloadKeeps(env, s, e.cfg, e.result);
    } else if e.Others? || !Enters(env, s, e) {
      OutsideKeeps(env, s, e);
    } else if Deliveries(s, e) == [] {
      EnteringKeeps(env, s, e);
    } else {
      SendKeeps(env, s, e.conn, e.behave, e.filtered);
    }
  }

  lemma {:induction false} RunKeeps(env: Env, cfg: Config, events: seq<Event>)
    ensures Inv(env, RunFrom(env, Start(env, cfg), events))
  {
    hide Inv, Next, Start;
    if events == [] {
      StartIsOk(env, cfg);
    } else {
      var n := |events| - 1;
      RunKeeps(env, cfg, events[..n]);
      NextKeeps(env, RunFrom(env, Start(env, cfg), events[..n]), events[n]);
    }
  }

  /** What a relay itself brings to a store is for a name that can be served. */
  lemma OwnNamesAreServed(env: Env, s: State, e: Event)
    requires Inv(env, s) && !e.Others?
    ensures Quota.Named(Writes(env, s, e).1)
  {
    hide RelayedOk, ClientsOk, PhaseOk, MailedOk, LoginOk, PolicyOf, UsernameOk, Reaches;
    if e.OfSession() && e.conn in s.sessions {
      var t := s.sessions[e.conn];
      assert SessionOk(env, s.history, s.logs, t);
      assert WellBuilt(s.history[t.snapAt]);
      if e.DataIncr? && Reaches(t, s.closed, e.fate) {
        ReachesIsDue(t, s.closed, e.fate);
      }
    }
  }

  lemma ReachesIsDue(s: Session, closed: multiset<nat>, fate: Quota.Fate)
    requires Reaches(s, closed, fate)
    ensures Due(s)
  {
  }
}
