/** The relay's objects as they are: a server whose snapshot is replaced in
    place and sessions that update their own fields, each method proved against
    the step of the state machine it performs, and all of them together against
    its runs. Models internal/gateway/server.go.
 */
module Session {
  import opened Text
  import opened Policy
  import opened Accounts
  import opened Inbound
  import S = Server
  import Spool
  import Milter
  import Quota

  // ---------- Building and swapping snapshots ----------

  method NewAccountStore(served: seq<Account>) returns (byUsername: map<string, Account>)
    ensures byUsername == S.ByUsername(served)
  {
    byUsername := map[];
    for i := 0 to |served|
      invariant byUsername == S.ByUsername(served[..i])
    {
      assert served[..i + 1][..i] == served[..i];
      byUsername := byUsername[served[i].username := served[i]];
    }
    assert served[..|served|] == served;
  }

  method NewPolicies(served: seq<Account>) returns (policies: map<string, S.AccountPolicy>)
    ensures policies == map u | u in S.ByUsername(served) :: S.PolicyOf(S.ByUsername(served)[u])
  {
    hide Compile;
    policies := map[];
    for i := 0 to |served|
      invariant policies == map u | u in S.ByUsername(served[..i]) :: S.PolicyOf(S.ByUsername(served[..i])[u])
    {
      assert served[..i + 1][..i] == served[..i];
      var senders := NewSenderPolicy(served[i].allowedSenders);
      policies := policies[served[i].username := S.AccountPolicy(senders, served[i].skipHeaderFromCheck)];
    }
    assert served[..|served|] == served;
  }

  method NewSnapshot(env: S.Env, cfg: S.Config, prev: Option<S.Snapshot>, client: nat) returns (snap: S.Snapshot)
    ensures snap == S.BuildSnapshot(env, cfg, prev, client)
  {
    hide S.ByUsername, S.PolicyOf, Served, Rejections;
    var lim := S.ReusableLimiter(prev, cfg);
    if lim.None? {
      lim := S.NewLimiter(cfg, client);
    }
    var served, rejected := PartitionAccounts(env.cost, cfg.accounts);
    var accounts := NewAccountStore(served);
    var policies := NewPolicies(served);
    snap := S.Snapshot(cfg, accounts, policies, lim);
  }

  /** The connection a swap closes, if any. */
  function Superseded(previous: S.Snapshot, snap: S.Snapshot): multiset<nat> {
    if previous.limiter.Some? && S.ClientOf(snap) != {previous.limiter.value.client}
    then multiset{previous.limiter.value.client} else multiset{}
  }

  lemma SwapCloses(env: S.Env, s: S.State, cfg: S.Config, snap: S.Snapshot)
    requires snap == S.BuildSnapshot(env, cfg, Some(s.current), s.clients)
    ensures S.Swap(env, s, cfg)
            == s.(current := snap, clients := s.clients + 1, dialled := S.Dial(s.dialled, snap, s.clients),
                  closed := s.closed + Superseded(s.current, snap),
                  inService := s.inService + S.ClientOf(snap))
  {
    hide S.BuildSnapshot, S.Dial;
    assert multiset(S.ClientOf(s.current) - S.ClientOf(snap)) == Superseded(s.current, snap);
  }

  class Relay {
    var current: S.Snapshot
    var clients: nat
    ghost var dialled: map<nat, S.StoreConfig>
    var closed: multiset<nat>
    ghost var inService: set<nat>

    /** These fields as a machine state that no session has joined yet. */
    ghost function Value(): S.State
      reads this
    {
      S.State(current, clients, dialled, closed, inService, map[], [], map[], map[], [])
    }

    constructor (env: S.Env, cfg: S.Config)
      ensures Value() == S.Start(env, cfg)
    {
      var snap := NewSnapshot(env, cfg, None, 0);
      current, clients, closed := snap, 1, multiset{};
      dialled, inService := S.Dial(map[], snap, 0), S.ClientOf(snap);
    }

    /** Swaps in a new configuration, or leaves everything served as it was. */
    method Reload(env: S.Env, cfg: S.Config, result: S.ReloadResult) returns (ok: bool)
      modifies this
      ensures ok <==> result.Loaded?
      ensures Value() == S.DoReload(env, old(Value()), cfg, result)
    {
      hide S.BuildSnapshot, S.Dial, S.ClientOf, S.Swap;
      if result.FailedEarly? {
        return false;
      }
      var previous := current;
      var snap := NewSnapshot(env, cfg, Some(previous), clients);
      clients := clients + 1;
      if result.FailedLate? {
        return false;
      }
      SwapCloses(env, old(Value()), cfg, snap);
      current := snap;
      dialled := S.Dial(dialled, snap, clients - 1);
      closed := closed + Superseded(previous, snap);
      inService := inService + S.ClientOf(snap);
      return true;
    }
  }

  // ---------- One client session ----------

  // A new spool holding a header and what follows it.
  method Buffer(header: string, content: string, threshold: int, fault: Spool.Fault, faults: seq<Spool.Fault>)
    returns (body: Spool.Spool, stored: bool)
    ensures fresh(body) && fresh(body.Repr()) && body.Valid()
    ensures stored ==> body.Contents() == header + content
    ensures fault.Healthy? && Milter.AllHealthy(faults) ==> stored
  {
    body := new Spool.Spool(threshold);
    var written;
    written, stored := body.Write(header, fault);
    if stored {
      assert header[..written] == header;
      written, stored := body.Copy(content, faults);
      assert stored ==> content[..written] == content;
    }
  }

  /** Where the session's goroutine is: idle, waiting for a password check, in
      the limiter's loop before or after an increment, or holding a checked
      message. */
  datatype Place =
    | Idle
    | Waiting(username: string, password: string)
    | Asking(dims: seq<Dimension>)
    | Asked(dims: seq<Dimension>, clock: nat, reply: Option<nat>)
    | Holding

  class Connection {
    var snap: S.Snapshot
    var account: Option<Account>
    var from: string
    var to: seq<string>
    var failures: nat
    var open: bool
    var mailed: bool
    var place: Place
    ghost var snapAt: nat
    ghost var mailedAt: nat
    ghost var verifications: nat
    ghost var login: S.Login
    ghost var at: nat
    ghost var counts: map<Dimension, nat>
    ghost var pending: nat
    ghost var text: string

    ghost function Phase(): S.Phase
      reads this
    {
      match place
      case Idle => S.Ready
      case Waiting(u, p) => S.Verifying(u, p)
      case Asking(dims) => S.Counting(at, dims, counts)
      case Asked(dims, clock, reply) => S.Expiring(at, dims, counts, pending, clock, reply)
      case Holding => S.Checked(at, counts, text)
    }

    /** The session between two steps. */
    ghost function View(): S.Session
      reads this
    {
      S.Session(snap, snapAt, account, from, to, failures, open, Phase(), mailed, mailedAt, verifications, login)
    }

    constructor (current: S.Snapshot, ghost now: nat)
      ensures View() == S.NewSession(current, now)
    {
      snap, account, from, to, failures, open, mailed := current, None, [], [], 0, true, false;
      place := Idle;
      snapAt, mailedAt, verifications, login := now, 0, 0, S.Login(now, 0, 0, []);
      at, counts, pending, text := 0, map[], 0, [];
    }

    /** Whether an AUTH now would need a verification slot. */
    method MayVerify() returns (b: bool)
      ensures b <==> S.MayVerify(View())
    {
      b := open && place.Idle? && account.None? && failures < S.MAX_AUTH_FAILURES;
    }

    /** The credentials arrive, with a slot taken if one is needed. */
    method BeginAuth(username: string, password: string, ghost now: nat)
      modifies this
      ensures View() == S.BeginAuth(old(View()), username, password, now)
    {
      if !open || !place.Idle? || account.Some? {
        return;
      }
      if failures >= S.MAX_AUTH_FAILURES {
        open := false;
        return;
      }
      place, verifications, login := Waiting(username, password), verifications + 1, login.(begun := now);
    }

    /** The password has been compared. */
    method EndAuth(env: S.Env, ghost now: nat)
      modifies this
      ensures View() == S.EndAuth(env, old(View()), now)
    {
      if !place.Waiting? {
        return;
      }
      var username, password := place.username, place.password;
      place := Idle;
      if username in snap.accounts {
        var acct := snap.accounts[username];
        if env.verify(acct.passwordHash, password) && !acct.disabled {
          account := Some(acct);
          login := login.(ended := now, password := password);
          return;
        }
      }
      failures := failures + 1;
    }

    method StillAuthorized(current: S.Snapshot, ghost now: nat) returns (ok: bool)
      requires open && place.Idle? && account.Some?
      modifies this
      ensures place.Idle? && View() == S.StillAuthorized(old(View()), current, now)
      ensures ok <==> open
    {
      var u := account.value.username;
      if u !in current.accounts || current.accounts[u].disabled {
        open := false;
        from, to, mailed := [], [], false;
        return false;
      }
      snap, snapAt := current, now;
      account := Some(current.accounts[u]);
      return true;
    }

    /** Accepts exactly the senders the policy in service allows. */
    method Mail(current: S.Snapshot, sender: string, ghost now: nat) returns (ok: bool)
      modifies this
      ensures View() == S.DoMail(old(View()), current, now, sender)
      ensures ok <==> old(open) && old(place).Idle? && old(account).Some?
                      && var u := old(account).value.username;
                         && S.Enabled(current, u)
                         && Allows(S.PolicyFor(current, current.accounts[u].username).senders, sender)
    {
      hide Allows, S.PolicyFor;
      if !open || !place.Idle? || account.None? {
        return false;
      }
      ok := StillAuthorized(current, now);
      if !ok {
        return;
      }
      if !Allows(S.PolicyFor(snap, account.value.username).senders, sender) {
        return false;
      }
      from, to, mailed, mailedAt := sender, [], true, now;
      return true;
    }

    method Rcpt(recipient: string)
      modifies this
      ensures View() == S.DoRcpt(old(View()), recipient)
    {
      if open && place.Idle? && mailed && account.Some? {
        to := to + [recipient];
      }
    }

    // Forgets the envelope and whatever DATA was about.
    method Clear()
      modifies this
      ensures View() == S.Reset(old(View()))
    {
      from, to, mailed, place := [], [], false, Idle;
    }

    method Reset()
      modifies this
      ensures View() == S.DoReset(old(View()))
    {
      if open && place.Idle? {
        Clear();
      }
    }

    /** DATA begins: the account is checked again and the configuration in
        service adopted, before a byte is read. */
    method BeginData(current: S.Snapshot, ghost now: nat)
      modifies this
      ensures View() == S.BeginData(old(View()), current, now)
    {
      hide S.CountedDims;
      if !open || !place.Idle? || !mailed || account.None? || to == [] {
        return;
      }
      var ok := StillAuthorized(current, now);
      if ok {
        place := Asking(S.CountedDims(snap.limiter, |to|));
        at, counts := now, map[];
      }
    }

    /** The store the next command of this session goes to, if it sends one. */
    method Target(env: S.Env) returns (k: nat)
      ensures snap.limiter.Some? ==> k == env.server(snap.limiter.value.limit.store)
      ensures snap.limiter.None? ==> k == 0
    {
      k := if snap.limiter.None? then 0 else env.server(snap.limiter.value.limit.store);
    }

    /** One increment on the shared store. */
    method Increment(store: Quota.QuotaStore, closed: multiset<nat>, clock: nat, time: nat, fate: Quota.Fate)
      requires store.Valid()
      modifies this, store
      ensures store.Valid()
      ensures View() == S.DoIncr(old(View()), closed, old(store.log), clock, time, fate)
      ensures store.log == old(store.log)
                           + if S.Reaches(old(View()), closed, fate) then [S.Charge(old(View()), clock, time)] else []
    {
      hide Quota.Run, Quota.Execute, Quota.Answer;
      if !place.Asking? || place.dims == [] || account.None? || snap.limiter.None? {
        return;
      }
      var l, d, dims := snap.limiter.value, place.dims[0], place.dims;
      if l.client in closed || fate.NothingRan? {
        Clear();
        return;
      }
      var cmd := Quota.IncrBy(l.gateway, account.value.username, d, clock, time, S.Amount(|to|, d));
      assert cmd == S.Charge(View(), clock, time);
      var answer := Quota.Answer(store.counters, cmd);
      pending := |store.log|;
      store.Apply(cmd);
      if fate.IncrRan? {
        Clear();
        return;
      }
      place := Asked(dims, clock, if fate.Answered? then Some(answer) else None);
    }

    /** Its expiry, and the answer against the limit. */
    method Expire(store: Quota.QuotaStore, time: nat)
      requires store.Valid()
      modifies this, store
      ensures store.Valid() && View() == S.DoExpire(old(View()))
      ensures store.log == old(store.log) + if S.Owing(old(View())) then [S.Expiry(old(View()), time)] else []
    {
      hide Quota.Run, Quota.Execute;
      if !place.Asked? || place.dims == [] || account.None? || snap.limiter.None? {
        return;
      }
      var l, d, reply, dims := snap.limiter.value, place.dims[0], place.reply, place.dims;
      store.Apply(Quota.ExpireNX(l.gateway, account.value.username, d, place.clock, time));
      if reply.None? || reply.value > Quota.LimitFor(l.limit.limits, d) {
        Clear();
        return;
      }
      counts := counts[d := pending];
      place := Asking(dims[1..]);
    }

    // The Received header, then the client's bytes, then the From check.
    method Receive(threshold: int, a: S.Arrival, fault: Spool.Fault, faults: seq<Spool.Fault>)
      returns (body: Spool.Spool, stored: bool, ok: bool)
      requires account.Some?
      ensures fresh(body) && fresh(body.Repr()) && body.Valid()
      ensures stored ==> body.Contents() == S.Written(snap, account.value.username, a)
      ensures ok <==>
                && stored
                && S.FromOk(S.PolicyFor(snap, account.value.username), S.Written(snap, account.value.username, a))
      ensures fault.Healthy? && Milter.AllHealthy(faults) ==> stored
    {
      hide ReceivedHeader, S.PolicyFor, CheckFrom;
      var header := ReceivedHeader(a.ehlo, a.remote, snap.config.hostname, account.value.username, a.date);
      body, stored := Buffer(header, a.content, threshold, fault, faults);
      var policy := S.PolicyFor(snap, account.value.username);
      ok := stored;
      if stored && !policy.skipHeaderFromCheck {
        var refusal := CheckHeaderFrom(body, policy.senders);
        ok := refusal.None?;
      }
    }

    /** The body arrives, once DATA is counted: it is buffered and checked, and
        held if it passes. */
    method Take(threshold: int, a: S.Arrival, fault: Spool.Fault, faults: seq<Spool.Fault>)
      returns (body: Spool.Spool?, stored: bool)
      modifies this
      ensures View() == if stored then S.DoBody(old(View()), a) else S.DoDrop(old(View()))
      ensures body != null <==> S.Counted(old(View())) && View().phase.Checked?
      ensures body != null ==> fresh(body) && fresh(body.Repr()) && body.Valid() && body.Contents() == View().phase.body
      ensures fault.Healthy? && Milter.AllHealthy(faults) ==> stored
    {
      hide S.Written, S.FromOk, S.PolicyFor, Milter.AllHealthy;
      if !place.Asking? || place.dims != [] || account.None? {
        return null, true;
      }
      var spool, ok;
      spool, stored, ok := Receive(threshold, a, fault, faults);
      if !ok {
        Clear();
        return null, stored;
      }
      place, text := Holding, S.Written(snap, account.value.username, a);
      return spool, stored;
    }

    function Signed(m: Milter.Mail): Option<string>
      reads this
      requires account.Some?
    {
      SignedFor(snap.config.keys, S.PolicyFor(snap, account.value.username).senders, m.from, m.body)
    }

    // The filters of the snapshot adopted at DATA, on a held message.
    method Filter(body: Spool.Spool, behave: nat -> Milter.Behaviour, ghost held: string)
      returns (filtered: Milter.Filtered)
      requires body.Valid() && body.Contents() == held && this !in body.Repr()
      modifies body.Repr()
      ensures S.Through(snap, Milter.Mail(from, to, held), behave, filtered)
    {
      hide Milter.Chain, Milter.Healthy, Milter.FailsClosed;
      var filters := Milter.Met(snap.config.filters, behave);
      if filters == [] {
        return Milter.NoFilters;
      }
      var msg := new Milter.MailMessage(from, to, body);
      var r := Milter.Run(msg, filters);
      if r != Milter.Pass {
        return Milter.Stopped;
      }
      var bytes := msg.body.ReadAt(0);
      filtered := Milter.Left(Milter.Mail(msg.from, msg.to, bytes));
      assert filtered.mail == msg.Value();
    }

    /** The held message meets the filters of the snapshot its DATA adopted, then
        the signing gate, and is handed to the upstream. */
    method Hand(body: Spool.Spool, behave: nat -> Milter.Behaviour)
      returns (filtered: Milter.Filtered, sent: Option<(Milter.Mail, Option<string>)>)
      requires place.Holding? && account.Some? && body.Valid() && body.Contents() == text && this !in body.Repr()
      modifies this, body.Repr()
      ensures View() == S.DoSend(old(View()))
      ensures S.Through(old(snap), S.Held(old(View())), behave, filtered)
      ensures forall c :: var d := S.Send(c, old(View()), behave, filtered);
                (sent.Some? <==> d.Some?) && (sent.Some? ==> sent.value == (d.value.sent, d.value.signedFor))
    {
      hide SignedFor, S.PolicyFor, S.Through;
      var bytes := body.ReadAt(0);
      var mail := Milter.Mail(from, to, bytes);
      filtered := Filter(body, behave, text);
      if filtered.Stopped? {
        sent := None;
      } else {
        var leaving := if filtered.Left? then filtered.mail else mail;
        sent := Some((leaving, Signed(leaving)));
      }
      Clear();
    }
  }
}
