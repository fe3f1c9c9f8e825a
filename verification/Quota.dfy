/** The quota counters every replica shares. Models `check`, `increment` and
    `key` of internal/gateway/ratelimit.go as commands interleaved on one store.
 */
module Quota {
  import opened Text
  import opened Accounts

  /** Times are in nanoseconds. */
  const SECOND: nat := 1_000_000_000
  const WINDOW: nat := 60 * SECOND

  function WindowOf(clock: nat): nat {
    clock / SECOND / 60
  }

  lemma WindowBounds(clock: nat)
    ensures WindowOf(clock) * WINDOW <= clock < WindowOf(clock) * WINDOW + WINDOW
  {
  }

  /** What a counter counts. */
  datatype Id = CounterId(gateway: string, account: string, dimension: Dimension, window: nat)

  /** One command as it reaches the store: `clock` is what the replica's clock
      read when it named the key, `at` the store's time of execution. */
  datatype Command =
    | IncrBy(gateway: string, account: string, dimension: Dimension, clock: nat, at: nat, amount: nat)
    | ExpireNX(gateway: string, account: string, dimension: Dimension, clock: nat, at: nat)
  {
    function Id(): Id {
      CounterId(gateway, account, dimension, WindowOf(clock))
    }

    function Key(): string {
      QuotaKey(gateway, account, dimension, WindowOf(clock))
    }
  }

  datatype Counter = Counter(value: nat, expiry: Option<nat>)
  type Store = map<string, Counter>

  predicate Live(store: Store, key: string, at: nat) {
    key in store && (store[key].expiry.None? || at < store[key].expiry.value)
  }

  /** What INCRBY answers. */
  function Answer(store: Store, c: Command): nat
    requires c.IncrBy?
  {
    c.amount + if Live(store, c.Key(), c.at) then store[c.Key()].value else 0
  }

  /** INCRBY keeps a counter's expiry; EXPIRE NX sets one only if there is none. */
  function Execute(store: Store, c: Command): Store {
    var key := c.Key();
    var live := Live(store, key, c.at);
    match c
    case IncrBy(_, _, _, _, _, _) =>
      store[key := Counter(Answer(store, c), if live then store[key].expiry else None)]
    case ExpireNX(_, _, _, _, at) =>
      if live && store[key].expiry.None?
      then store[key := Counter(store[key].value, Some(at + 2 * WINDOW))]
      else store
  }

  /** The store after a run of commands. */
  function Run(cmds: seq<Command>): Store {
    if cmds == [] then map[] else Execute(Run(cmds[..|cmds| - 1]), cmds[|cmds| - 1])
  }

  /** The answer the `i`-th command of a run got. */
  function AnswerAt(cmds: seq<Command>, i: nat): nat
    requires i < |cmds| && cmds[i].IncrBy?
  {
    Answer(Run(cmds[..i]), cmds[i])
  }

  /** How much was added to one counter in a run. */
  function Total(cmds: seq<Command>, id: Id): nat {
    if cmds == [] then 0
    else
      var c := cmds[|cmds| - 1];
      Total(cmds[..|cmds| - 1], id) + if c.IncrBy? && c.Id() == id then c.amount else 0
  }

  // ---------- Runs within bounds on clocks and latency ----------

  /** A replica's clock is off by at most `skew` and a command takes at most
      `latency` from naming its key to running. */
  predicate Timely(c: Command, skew: nat, latency: nat) {
    c.clock <= c.at + skew && c.at <= c.clock + skew + latency
  }

  /** Commands run in the order of the store's time, each in time. */
  predicate Timed(cmds: seq<Command>, skew: nat, latency: nat) {
    && (forall i :: 0 <= i < |cmds| ==> Timely(cmds[i], skew, latency))
    && (forall i, j :: 0 <= i < j < |cmds| ==> cmds[i].at <= cmds[j].at)
  }

  /** Every command is for a username that can be served. */
  predicate Named(cmds: seq<Command>) {
    forall i :: 0 <= i < |cmds| ==> UsernameOk(cmds[i].account)
  }

  /** No counter can expire while a replica may still add to it. */
  predicate SafeExpiry(counter: Counter, window: nat, skew: nat) {
    counter.expiry.Some? ==> window * WINDOW + 2 * WINDOW <= counter.expiry.value + skew
  }

  lemma InTime(c: Command, counter: Counter, skew: nat, latency: nat)
    requires Timely(c, skew, latency) && 2 * skew + latency <= WINDOW
    requires SafeExpiry(counter, WindowOf(c.clock), skew)
    ensures counter.expiry.None? || c.at < counter.expiry.value
  {
    WindowBounds(c.clock);
  }

  /** How much was added under one key in a run. */
  function KeyTotal(cmds: seq<Command>, key: string): nat {
    if cmds == [] then 0
    else
      var c := cmds[|cmds| - 1];
      KeyTotal(cmds[..|cmds| - 1], key) + if c.IncrBy? && c.Key() == key then c.amount else 0
  }

  // What holds of the store after every run.
  ghost predicate Exact(cmds: seq<Command>, store: Store, skew: nat) {
    && (forall i :: 0 <= i < |cmds| && cmds[i].IncrBy? ==>
          && cmds[i].Key() in store
          && store[cmds[i].Key()].value == KeyTotal(cmds, cmds[i].Key())
          && SafeExpiry(store[cmds[i].Key()], WindowOf(cmds[i].clock), skew))
    && (forall k :: k in store ==> exists i :: 0 <= i < |cmds| && cmds[i].IncrBy? && cmds[i].Key() == k)
  }

  /** The window can be read back from any key, whatever the names in it. */
  lemma KeyTellsWindow(c: Command, d: Command)
    requires c.Key() == d.Key()
    ensures WindowOf(c.clock) == WindowOf(d.clock)
  {
    hide WindowOf;
    var v, w := WindowOf(c.clock), WindowOf(d.clock);
    var a := "mailout:" + c.gateway + ":" + c.account + ":" + DimensionName(c.dimension);
    var b := "mailout:" + d.gateway + ":" + d.account + ":" + DimensionName(d.dimension);
    SplitLast(a, Decimal(v), b, Decimal(w));
    DecimalInjective(v, w);
  }

  lemma SameKey(c: Command, d: Command)
    requires UsernameOk(c.account) && UsernameOk(d.account)
    ensures c.Key() == d.Key() <==> c.Id() == d.Id()
  {
    if c.Key() == d.Key() {
      QuotaKeyInjective(c.gateway, c.account, c.dimension, WindowOf(c.clock),
                        d.gateway, d.account, d.dimension, WindowOf(d.clock));
    }
  }

  lemma {:induction false} KeyTotalZero(cmds: seq<Command>, key: string)
    requires forall i :: 0 <= i < |cmds| && cmds[i].IncrBy? ==> cmds[i].Key() != key
    ensures KeyTotal(cmds, key) == 0
  {
    hide QuotaKey, WindowOf;
    if cmds != [] {
      KeyTotalZero(cmds[..|cmds| - 1], key);
    }
  }

  // What the store holds for the key of the next command.
  lemma Looked(cmds: seq<Command>, c: Command, skew: nat, latency: nat)
    requires Timed(cmds + [c], skew, latency) && 2 * skew + latency <= WINDOW
    requires Exact(cmds, Run(cmds), skew)
    ensures var store := Run(cmds);
            Live(store, c.Key(), c.at) <==> c.Key() in store
    ensures var store := Run(cmds);
            if c.Key() in store then store[c.Key()].value == KeyTotal(cmds, c.Key())
                                     && SafeExpiry(store[c.Key()], WindowOf(c.clock), skew)
            else KeyTotal(cmds, c.Key()) == 0
  {
    hide Run, KeyTotal, QuotaKey, WindowOf;
    var store := Run(cmds);
    assert (cmds + [c])[|cmds|] == c;
    if c.Key() in store {
      var i :| 0 <= i < |cmds| && cmds[i].IncrBy? && cmds[i].Key() == c.Key();
      KeyTellsWindow(cmds[i], c);
      InTime(c, store[c.Key()], skew, latency);
    } else {
      KeyTotalZero(cmds, c.Key());
    }
  }

  lemma TotalAppend(cmds: seq<Command>, c: Command, id: Id)
    ensures Total(cmds + [c], id) == Total(cmds, id) + if c.IncrBy? && c.Id() == id then c.amount else 0
  {
    assert (cmds + [c])[..|cmds|] == cmds;
  }

  lemma KeyTotalAppend(cmds: seq<Command>, c: Command, key: string)
    ensures KeyTotal(cmds + [c], key) == KeyTotal(cmds, key) + if c.IncrBy? && c.Key() == key then c.amount else 0
  {
    assert (cmds + [c])[..|cmds|] == cmds;
  }

  lemma RunAppend(cmds: seq<Command>, c: Command)
    ensures Run(cmds + [c]) == Execute(Run(cmds), c)
  {
    assert (cmds + [c])[..|cmds|] == cmds;
  }

  lemma ExecutedCounter(cmds: seq<Command>, c: Command, skew: nat, latency: nat)
    requires Timed(cmds + [c], skew, latency) && 2 * skew + latency <= WINDOW
    requires Exact(cmds, Run(cmds), skew)
    ensures var store := Execute(Run(cmds), c);
            if c.Key() in store
            then store[c.Key()].value == KeyTotal(cmds + [c], c.Key())
                 && SafeExpiry(store[c.Key()], WindowOf(c.clock), skew)
            else KeyTotal(cmds + [c], c.Key()) == 0
    ensures c.IncrBy? ==> Answer(Run(cmds), c) == KeyTotal(cmds + [c], c.Key())
  {
    Looked(cmds, c, skew, latency);
    KeyTotalAppend(cmds, c, c.Key());
    assert (cmds + [c])[|cmds|] == c;
    WindowBounds(c.clock);
    hide Run, Exact, KeyTotal, Timed, QuotaKey, WindowOf;
  }

  // An execution touches one counter only.
  lemma OthersKept(store: Store, c: Command, k: string)
    requires k != c.Key()
    ensures k in Execute(store, c) <==> k in store
    ensures k in store ==> Execute(store, c)[k] == store[k]
  {
    hide QuotaKey, WindowOf, Answer;
  }

  // One command of the run and the counter it named, after the next command.
  lemma ExactAt(cmds: seq<Command>, c: Command, i: nat, skew: nat, latency: nat)
    requires Timed(cmds + [c], skew, latency) && 2 * skew + latency <= WINDOW
    requires Exact(cmds, Run(cmds), skew)
    requires i <= |cmds| && (cmds + [c])[i].IncrBy?
    ensures var x, store := (cmds + [c])[i], Execute(Run(cmds), c);
            && x.Key() in store && store[x.Key()].value == KeyTotal(cmds + [c], x.Key())
            && SafeExpiry(store[x.Key()], WindowOf(x.clock), skew)
  {
    hide Run, Execute, KeyTotal, SafeExpiry, QuotaKey, WindowOf, Timed;
    ExecutedCounter(cmds, c, skew, latency);
    KeyStays(Run(cmds), c);
    var all := cmds + [c];
    var x := all[i];
    if x.Key() == c.Key() {
      KeyTellsWindow(x, c);
    } else {
      assert x == cmds[i];
      KeyTotalAppend(cmds, c, x.Key());
      OthersKept(Run(cmds), c, x.Key());
    }
  }

  lemma KeyStays(store: Store, c: Command)
    ensures c.IncrBy? || c.Key() in store ==> c.Key() in Execute(store, c)
    ensures c.Key() in Execute(store, c) ==> c.IncrBy? || c.Key() in store
  {
    hide QuotaKey, WindowOf, Answer;
  }

  lemma NamedBefore(cmds: seq<Command>, c: Command, k: string)
    requires forall k :: k in Run(cmds) ==> exists i :: 0 <= i < |cmds| && cmds[i].IncrBy? && cmds[i].Key() == k
    requires k in Execute(Run(cmds), c)
    ensures exists i :: 0 <= i < |cmds + [c]| && (cmds + [c])[i].IncrBy? && (cmds + [c])[i].Key() == k
  {
    hide Run, Execute, QuotaKey, WindowOf;
    var all := cmds + [c];
    KeyStays(Run(cmds), c);
    if k != c.Key() {
      OthersKept(Run(cmds), c, k);
    }
    if k in Run(cmds) {
      var i :| 0 <= i < |cmds| && cmds[i].IncrBy? && cmds[i].Key() == k;
      assert all[i].IncrBy? && all[i].Key() == k;
    } else {
      assert all[|cmds|].IncrBy? && all[|cmds|].Key() == k;
    }
  }

  lemma ExactStep(cmds: seq<Command>, c: Command, skew: nat, latency: nat)
    requires Timed(cmds + [c], skew, latency) && 2 * skew + latency <= WINDOW
    requires Exact(cmds, Run(cmds), skew)
    ensures Exact(cmds + [c], Run(cmds + [c]), skew)
  {
    hide Run, Execute, KeyTotal, SafeExpiry, QuotaKey, WindowOf, Timed;
    RunAppend(cmds, c);
    var all, after := cmds + [c], Execute(Run(cmds), c);
    forall i | 0 <= i < |all| && all[i].IncrBy?
      ensures all[i].Key() in after && after[all[i].Key()].value == KeyTotal(all, all[i].Key())
              && SafeExpiry(after[all[i].Key()], WindowOf(all[i].clock), skew)
    {
      ExactAt(cmds, c, i, skew, latency);
    }
    forall k | k in after ensures exists i :: 0 <= i < |all| && all[i].IncrBy? && all[i].Key() == k {
      NamedBefore(cmds, c, k);
    }
  }

  lemma TimedPrefix(cmds: seq<Command>, n: nat, skew: nat, latency: nat)
    requires Timed(cmds, skew, latency) && n <= |cmds|
    ensures Timed(cmds[..n], skew, latency)
  {
  }

  lemma {:induction false} RunIsExact(cmds: seq<Command>, skew: nat, latency: nat)
    requires Timed(cmds, skew, latency) && 2 * skew + latency <= WINDOW
    ensures Exact(cmds, Run(cmds), skew)
  {
    if cmds != [] {
      var n := |cmds| - 1;
      TimedPrefix(cmds, n, skew, latency);
      hide Timed, Exact;
      RunIsExact(cmds[..n], skew, latency);
      assert cmds == cmds[..n] + [cmds[n]];
      ExactStep(cmds[..n], cmds[n], skew, latency);
    }
  }

  /** However the replicas interleave, an increment is answered with everything
      added so far under its key. */
  lemma AnswersAreTotals(cmds: seq<Command>, i: nat, skew: nat, latency: nat)
    requires Timed(cmds, skew, latency) && 2 * skew + latency <= WINDOW
    requires i < |cmds| && cmds[i].IncrBy?
    ensures AnswerAt(cmds, i) == KeyTotal(cmds[..i + 1], cmds[i].Key())
  {
    TimedPrefix(cmds, i, skew, latency);
    TimedPrefix(cmds, i + 1, skew, latency);
    assert cmds[..i + 1] == cmds[..i] + [cmds[i]];
    hide Timed, Exact, KeyTotal, QuotaKey, WindowOf;
    RunIsExact(cmds[..i], skew, latency);
    ExecutedCounter(cmds[..i], cmds[i], skew, latency);
  }

  function KeyOf(id: Id): string {
    QuotaKey(id.gateway, id.account, id.dimension, id.window)
  }

  lemma {:induction false} KeyTotalCovers(cmds: seq<Command>, id: Id)
    ensures Total(cmds, id) <= KeyTotal(cmds, KeyOf(id))
  {
    hide QuotaKey, WindowOf;
    if cmds != [] {
      KeyTotalCovers(cmds[..|cmds| - 1], id);
    }
  }

  lemma {:induction false} KeyTotalIsTotal(cmds: seq<Command>, c: Command)
    requires Named(cmds) && UsernameOk(c.account)
    ensures KeyTotal(cmds, c.Key()) == Total(cmds, c.Id())
  {
    hide QuotaKey, WindowOf, UsernameOk;
    if cmds != [] {
      KeyTotalIsTotal(cmds[..|cmds| - 1], c);
      SameKey(cmds[|cmds| - 1], c);
    }
  }

  /** And where the names are ones that can be served, with everything added for
      that gateway, account, dimension and window, and with nothing else. */
  lemma CountsAreExact(cmds: seq<Command>, i: nat, skew: nat, latency: nat)
    requires Timed(cmds, skew, latency) && Named(cmds) && 2 * skew + latency <= WINDOW
    requires i < |cmds| && cmds[i].IncrBy?
    ensures AnswerAt(cmds, i) == Total(cmds[..i + 1], cmds[i].Id())
  {
    AnswersAreTotals(cmds, i, skew, latency);
    hide Timed, AnswerAt, KeyTotal, Total, QuotaKey, WindowOf, UsernameOk;
    KeyTotalIsTotal(cmds[..i + 1], cmds[i]);
  }

  /** No counter expires while a replica may still add to it: whatever a run has
      counted under the key of its next command is still there. */
  lemma NeverExpiresEarly(cmds: seq<Command>, i: nat, skew: nat, latency: nat)
    requires Timed(cmds, skew, latency) && 2 * skew + latency <= WINDOW && i < |cmds|
    ensures cmds[i].Key() in Run(cmds[..i]) ==> Live(Run(cmds[..i]), cmds[i].Key(), cmds[i].at)
  {
    TimedPrefix(cmds, i, skew, latency);
    TimedPrefix(cmds, i + 1, skew, latency);
    assert cmds[..i + 1] == cmds[..i] + [cmds[i]];
    hide Timed, Exact, Run;
    RunIsExact(cmds[..i], skew, latency);
    Looked(cmds[..i], cmds[i], skew, latency);
  }

  // ---------- What is let through ----------

  predicate Passes(cmds: seq<Command>, i: nat, limit: nat)
    requires i < |cmds|
  {
    cmds[i].IncrBy? && AnswerAt(cmds, i) <= limit
  }

  /** The amount one counter let through under a limit. */
  function Passed(cmds: seq<Command>, n: nat, id: Id, limit: nat): nat
    requires n <= |cmds|
  {
    if n == 0 then 0
    else Passed(cmds, n - 1, id, limit)
         + if Passes(cmds, n - 1, limit) && cmds[n - 1].Id() == id then cmds[n - 1].amount else 0
  }

  lemma TotalNext(cmds: seq<Command>, n: nat, id: Id)
    requires n < |cmds|
    ensures Total(cmds[..n + 1], id)
         == Total(cmds[..n], id) + if cmds[n].IncrBy? && cmds[n].Id() == id then cmds[n].amount else 0
  {
    assert cmds[..n + 1] == cmds[..n] + [cmds[n]];
    TotalAppend(cmds[..n], cmds[n], id);
  }

  /** What one counter lets through never exceeds its limit: an answer covers all
      that was added for its counter, whatever else shares its key. */
  lemma {:induction false} PassedWithinLimit(cmds: seq<Command>, n: nat, id: Id, limit: nat, skew: nat, latency: nat)
    requires Timed(cmds, skew, latency) && 2 * skew + latency <= WINDOW && n <= |cmds|
    ensures Passed(cmds, n, id, limit) <= limit
    ensures Passed(cmds, n, id, limit) <= Total(cmds[..n], id)
  {
    hide Timed, AnswerAt, QuotaKey, WindowOf, Total, KeyTotal;
    if n > 0 {
      PassedWithinLimit(cmds, n - 1, id, limit, skew, latency);
      TotalNext(cmds, n - 1, id);
      if cmds[n - 1].IncrBy? {
        AnswersAreTotals(cmds, n - 1, skew, latency);
        KeyTotalCovers(cmds[..n], id);
      }
    }
  }

  lemma {:induction false} KeyTotalMonotone(cmds: seq<Command>, m: nat, n: nat, key: string)
    requires m <= n <= |cmds|
    ensures KeyTotal(cmds[..m], key) <= KeyTotal(cmds[..n], key)
  {
    hide QuotaKey, WindowOf;
    if m < n {
      KeyTotalMonotone(cmds, m, n - 1, key);
      assert cmds[..n] == cmds[..n - 1] + [cmds[n - 1]];
      KeyTotalAppend(cmds[..n - 1], cmds[n - 1], key);
    }
  }

  /** Over quota stays over quota until the window ends. */
  lemma OnceOverAlwaysOver(cmds: seq<Command>, i: nat, j: nat, limit: nat, skew: nat, latency: nat)
    requires Timed(cmds, skew, latency) && 2 * skew + latency <= WINDOW
    requires i < j < |cmds| && cmds[i].IncrBy? && cmds[j].IncrBy? && cmds[i].Id() == cmds[j].Id()
    requires !Passes(cmds, i, limit)
    ensures !Passes(cmds, j, limit)
  {
    hide Timed, AnswerAt, KeyTotal, QuotaKey, WindowOf;
    AnswersAreTotals(cmds, i, skew, latency);
    AnswersAreTotals(cmds, j, skew, latency);
    KeyTotalMonotone(cmds, i + 1, j + 1, cmds[i].Key());
  }

  predicate InSpan(c: Command, id: Id, from: nat) {
    c.Id() == id.(window := c.Id().window) && from <= c.clock <= from + WINDOW
  }

  /** The amount let through for one account and dimension, by increments whose
      keys were named within one window's length. */
  function PassedInSpan(cmds: seq<Command>, n: nat, id: Id, from: nat, limit: nat): nat
    requires n <= |cmds|
  {
    if n == 0 then 0
    else PassedInSpan(cmds, n - 1, id, from, limit)
         + if Passes(cmds, n - 1, limit) && InSpan(cmds[n - 1], id, from) then cmds[n - 1].amount else 0
  }

  lemma SpanMeetsTwoWindows(clock: nat, from: nat)
    requires from <= clock <= from + WINDOW
    ensures WindowOf(clock) == WindowOf(from) || WindowOf(clock) == WindowOf(from) + 1
  {
    WindowBounds(clock);
    WindowBounds(from);
  }

  lemma {:induction false} SpanSplits(cmds: seq<Command>, n: nat, id: Id, from: nat, limit: nat)
    requires n <= |cmds|
    ensures PassedInSpan(cmds, n, id, from, limit)
         <= Passed(cmds, n, id.(window := WindowOf(from)), limit)
            + Passed(cmds, n, id.(window := WindowOf(from) + 1), limit)
  {
    if n > 0 {
      SpanSplits(cmds, n - 1, id, from, limit);
      var a, b, c := id.(window := WindowOf(from)), id.(window := WindowOf(from) + 1), cmds[n - 1];
      assert InSpan(c, id, from) ==> c.Id() == a || c.Id() == b by {
        if InSpan(c, id, from) {
          SpanMeetsTwoWindows(c.clock, from);
        }
      }
      hide Passes, WindowOf;
      assert Passed(cmds, n, a, limit) >= Passed(cmds, n - 1, a, limit);
      assert Passed(cmds, n, b, limit) >= Passed(cmds, n - 1, b, limit);
    }
  }

  /** The boundary effect on the clocks that name the windows: no span of one
      window's length lets through more than twice the limit. */
  lemma TwiceTheLimit(cmds: seq<Command>, id: Id, from: nat, limit: nat, skew: nat, latency: nat)
    requires Timed(cmds, skew, latency) && 2 * skew + latency <= WINDOW
    ensures PassedInSpan(cmds, |cmds|, id, from, limit) <= 2 * limit
  {
    hide Timed, PassedInSpan, Passed;
    SpanSplits(cmds, |cmds|, id, from, limit);
    PassedWithinLimit(cmds, |cmds|, id.(window := WindowOf(from)), limit, skew, latency);
    PassedWithinLimit(cmds, |cmds|, id.(window := WindowOf(from) + 1), limit, skew, latency);
  }

  // ---------- Spans of store time ----------

  predicate InStoreSpan(c: Command, id: Id, from: nat) {
    c.Id() == id.(window := c.Id().window) && from <= c.at <= from + WINDOW
  }

  /** The amount let through for one account and dimension by increments that
      ran within one window's length of the store's own time. */
  function PassedInStoreSpan(cmds: seq<Command>, n: nat, id: Id, from: nat, limit: nat): nat
    requires n <= |cmds|
  {
    if n == 0 then 0
    else PassedInStoreSpan(cmds, n - 1, id, from, limit)
         + if Passes(cmds, n - 1, limit) && InStoreSpan(cmds[n - 1], id, from) then cmds[n - 1].amount else 0
  }

  // The earliest window a command run at `from` can name.
  function FirstWindow(from: nat, skew: nat, latency: nat): nat {
    WindowOf(if from < skew + latency then 0 else from - skew - latency)
  }

  lemma StoreSpanMeetsThreeWindows(c: Command, from: nat, skew: nat, latency: nat)
    requires Timely(c, skew, latency) && 2 * skew + latency <= WINDOW && from <= c.at <= from + WINDOW
    ensures var w := FirstWindow(from, skew, latency); w <= WindowOf(c.clock) <= w + 2
  {
    WindowBounds(c.clock);
    WindowBounds(if from < skew + latency then 0 else from - skew - latency);
  }

  lemma {:induction false} StoreSpanSplits(cmds: seq<Command>, n: nat, id: Id, from: nat, limit: nat, skew: nat,
                                           latency: nat)
    requires n <= |cmds| && Timed(cmds, skew, latency) && 2 * skew + latency <= WINDOW
    ensures var w := FirstWindow(from, skew, latency);
            PassedInStoreSpan(cmds, n, id, from, limit)
            <= Passed(cmds, n, id.(window := w), limit) + Passed(cmds, n, id.(window := w + 1), limit)
               + Passed(cmds, n, id.(window := w + 2), limit)
  {
    hide AnswerAt, WindowOf, FirstWindow, Passed;
    var w := FirstWindow(from, skew, latency);
    var a, b, d := id.(window := w), id.(window := w + 1), id.(window := w + 2);
    if n > 0 {
      StoreSpanSplits(cmds, n - 1, id, from, limit, skew, latency);
      var c := cmds[n - 1];
      if InStoreSpan(c, id, from) {
        StoreSpanMeetsThreeWindows(c, from, skew, latency);
        assert c.Id() == a || c.Id() == b || c.Id() == d;
      }
      PassedGrows(cmds, n, a, limit);
      PassedGrows(cmds, n, b, limit);
      PassedGrows(cmds, n, d, limit);
    }
  }

  lemma PassedGrows(cmds: seq<Command>, n: nat, id: Id, limit: nat)
    requires 0 < n <= |cmds|
    ensures Passed(cmds, n, id, limit) >= Passed(cmds, n - 1, id, limit)
    ensures Passes(cmds, n - 1, limit) && cmds[n - 1].Id() == id ==>
              Passed(cmds, n, id, limit) == Passed(cmds, n - 1, id, limit) + cmds[n - 1].amount
  {
    hide AnswerAt, WindowOf;
  }

  /** In the store's own time a span can meet three windows, and no more: three
      limits bound what goes out within one window's length. */
  lemma ThreeTimesTheLimit(cmds: seq<Command>, id: Id, from: nat, limit: nat, skew: nat, latency: nat)
    requires Timed(cmds, skew, latency) && 2 * skew + latency <= WINDOW
    ensures PassedInStoreSpan(cmds, |cmds|, id, from, limit) <= 3 * limit
  {
    hide Timed, PassedInStoreSpan, Passed, FirstWindow;
    var w := FirstWindow(from, skew, latency);
    StoreSpanSplits(cmds, |cmds|, id, from, limit, skew, latency);
    PassedWithinLimit(cmds, |cmds|, id.(window := w), limit, skew, latency);
    PassedWithinLimit(cmds, |cmds|, id.(window := w + 1), limit, skew, latency);
    PassedWithinLimit(cmds, |cmds|, id.(window := w + 2), limit, skew, latency);
  }

  // Three increments within one window's length that name three windows: the
  // first was named one instant before it ran.
  function Straddling(account: string): seq<Command> {
    [IncrBy([], account, Messages, WINDOW - 1, WINDOW, 1),
     IncrBy([], account, Messages, WINDOW, WINDOW, 1),
     IncrBy([], account, Messages, 2 * WINDOW, 2 * WINDOW, 1)]
  }

  lemma {:induction false} KeysAreNamed(cmds: seq<Command>)
    ensures forall k :: k in Run(cmds) ==> exists i :: 0 <= i < |cmds| && cmds[i].IncrBy? && cmds[i].Key() == k
  {
    if cmds != [] {
      var n := |cmds| - 1;
      KeysAreNamed(cmds[..n]);
      assert cmds == cmds[..n] + [cmds[n]];
      hide Execute, QuotaKey, WindowOf;
      forall k | k in Run(cmds) ensures exists i :: 0 <= i < |cmds| && cmds[i].IncrBy? && cmds[i].Key() == k {
        NamedBefore(cmds[..n], cmds[n], k);
      }
    }
  }

  // The first increment of a window is answered with itself.
  lemma FirstAnswer(cmds: seq<Command>, i: nat)
    requires i < |cmds| && cmds[i].IncrBy?
    requires forall j :: 0 <= j < i ==> WindowOf(cmds[j].clock) != WindowOf(cmds[i].clock)
    ensures AnswerAt(cmds, i) == cmds[i].amount
  {
    hide Run, QuotaKey, WindowOf;
    KeysAreNamed(cmds[..i]);
    if cmds[i].Key() in Run(cmds[..i]) {
      var j :| 0 <= j < |cmds[..i]| && cmds[..i][j].IncrBy? && cmds[..i][j].Key() == cmds[i].Key();
      KeyTellsWindow(cmds[j], cmds[i]);
      assert false;
    }
  }

  lemma StraddlingPasses(account: string)
    ensures var cmds := Straddling(account);
            PassedInStoreSpan(cmds, 3, cmds[0].Id(), WINDOW, 1) == 3
  {
    hide AnswerAt, QuotaKey;
    var cmds := Straddling(account);
    WindowBounds(WINDOW - 1);
    WindowBounds(WINDOW);
    WindowBounds(2 * WINDOW);
    hide WindowOf;
    FirstAnswer(cmds, 0);
    FirstAnswer(cmds, 1);
    FirstAnswer(cmds, 2);
    assert PassedInStoreSpan(cmds, 1, cmds[0].Id(), WINDOW, 1) == 1;
    assert PassedInStoreSpan(cmds, 2, cmds[0].Id(), WINDOW, 1) == 2;
  }

  lemma {:induction false} SameSpan(cmds: seq<Command>, n: nat, id: Id, from: nat, limit: nat)
    requires n <= |cmds| && Timed(cmds, 0, 0)
    ensures PassedInStoreSpan(cmds, n, id, from, limit) == PassedInSpan(cmds, n, id, from, limit)
  {
    hide AnswerAt, WindowOf;
    if n > 0 {
      SameSpan(cmds, n - 1, id, from, limit);
      assert Timely(cmds[n - 1], 0, 0);
    }
  }

  /** The documented bound, in the store's own time: twice the limit holds in
      every run exactly when clocks agree and commands take no time. The least
      skew or delay lets three limits out. */
  lemma TwiceInStoreTimeIff(account: string, skew: nat, latency: nat)
    ensures (forall cmds, id: Id, from: nat, limit: nat | Timed(cmds, skew, latency) && id.account == account ::
               PassedInStoreSpan(cmds, |cmds|, id, from, limit) <= 2 * limit)
            <==> skew == 0 && latency == 0
  {
    hide PassedInSpan, PassedInStoreSpan;
    if skew == 0 && latency == 0 {
      forall cmds, id: Id, from: nat, limit: nat | Timed(cmds, skew, latency) && id.account == account
        ensures PassedInStoreSpan(cmds, |cmds|, id, from, limit) <= 2 * limit
      {
        SameSpan(cmds, |cmds|, id, from, limit);
        TwiceTheLimit(cmds, id, from, limit, 0, 0);
      }
    } else {
      var cmds := Straddling(account);
      StraddlingPasses(account);
      assert Timed(cmds, skew, latency);
    }
  }

  // ---------- Sums over chosen increments ----------

  /** What the increments at some positions of a log added. */
  function SumAt(log: seq<Command>, n: nat, ps: set<nat>): nat
    requires n <= |log|
  {
    if n == 0 then 0
    else SumAt(log, n - 1, ps) + if n - 1 in ps && log[n - 1].IncrBy? then log[n - 1].amount else 0
  }

  lemma {:induction false} SumAdd(log: seq<Command>, n: nat, ps: set<nat>, p: nat)
    requires n <= |log| && p !in ps && p < |log| && log[p].IncrBy?
    ensures SumAt(log, n, ps + {p}) == SumAt(log, n, ps) + if p < n then log[p].amount else 0
  {
    if n > 0 {
      SumAdd(log, n - 1, ps, p);
    }
  }

  lemma {:induction false} SumWithin(log: seq<Command>, n: nat, ps: set<nat>, id: Id, limit: nat)
    requires n <= |log| && forall p | p in ps && p < n :: Passes(log, p, limit) && log[p].Id() == id
    ensures SumAt(log, n, ps) <= Passed(log, n, id, limit)
  {
    hide AnswerAt, WindowOf;
    if n > 0 {
      SumWithin(log, n - 1, ps, id, limit);
    }
  }

  lemma {:induction false} SumInSpan(log: seq<Command>, n: nat, ps: set<nat>, id: Id, from: nat, limit: nat)
    requires n <= |log| && forall p | p in ps && p < n :: Passes(log, p, limit) && InStoreSpan(log[p], id, from)
    ensures SumAt(log, n, ps) <= PassedInStoreSpan(log, n, id, from, limit)
  {
    hide AnswerAt, InStoreSpan;
    if n > 0 {
      SumInSpan(log, n - 1, ps, id, from, limit);
    }
  }

  lemma {:induction false} SumInClockSpan(log: seq<Command>, n: nat, ps: set<nat>, id: Id, from: nat, limit: nat)
    requires n <= |log| && forall p | p in ps && p < n :: Passes(log, p, limit) && InSpan(log[p], id, from)
    ensures SumAt(log, n, ps) <= PassedInSpan(log, n, id, from, limit)
  {
    hide AnswerAt, InSpan;
    if n > 0 {
      SumInClockSpan(log, n - 1, ps, id, from, limit);
    }
  }

  // ---------- Expiry ----------

  lemma ExpiryKept(store: Store, c: Command, key: string)
    requires key in store && store[key].expiry.Some? && c.at < store[key].expiry.value
    ensures key in Execute(store, c) && Execute(store, c)[key].expiry == store[key].expiry
  {
    hide WindowOf, QuotaKey;
  }

  /** Once set, an expiry is not postponed by any later traffic: in every run it
      stays what it was until it is reached. */
  lemma {:induction false} ExpiryIsNotPostponed(cmds: seq<Command>, m: nat, n: nat, key: string)
    requires m <= n <= |cmds| && key in Run(cmds[..m]) && Run(cmds[..m])[key].expiry.Some?
    requires forall i :: m <= i < n ==> cmds[i].at < Run(cmds[..m])[key].expiry.value
    ensures key in Run(cmds[..n]) && Run(cmds[..n])[key].expiry == Run(cmds[..m])[key].expiry
  {
    hide Execute;
    if m < n {
      ExpiryIsNotPostponed(cmds, m, n - 1, key);
      assert cmds[..n] == cmds[..n - 1] + [cmds[n - 1]];
      RunAppend(cmds[..n - 1], cmds[n - 1]);
      ExpiryKept(Run(cmds[..n - 1]), cmds[n - 1], key);
    }
  }

  // ---------- The condition on the clocks is exact ----------

  // A window opened as early and closed as late as the clocks allow.
  function Stretched(account: string, skew: nat, latency: nat): seq<Command> {
    var start := skew * WINDOW;
    var last := start + WINDOW - 1;
    [IncrBy([], account, Messages, start, start - skew, 1),
     ExpireNX([], account, Messages, start, start - skew),
     IncrBy([], account, Messages, last, last + skew + latency, 1)]
  }

  lemma StretchedIsTimed(account: string, skew: nat, latency: nat)
    ensures skew <= skew * WINDOW
    ensures Timed(Stretched(account, skew, latency), skew, latency)
    ensures WindowOf(skew * WINDOW) == skew == WindowOf(skew * WINDOW + WINDOW - 1)
  {
    WindowBounds(skew * WINDOW);
    WindowBounds(skew * WINDOW + WINDOW - 1);
  }

  // A counter made, given its expiry, and added to after it.
  lemma ExpiredRun(cmds: seq<Command>, key: string)
    requires |cmds| == 3 && cmds[0].IncrBy? && cmds[1].ExpireNX? && cmds[2].IncrBy?
    requires cmds[0].Key() == key && cmds[1].Key() == key && cmds[2].Key() == key
    requires cmds[0].amount == 1 && cmds[2].amount == 1 && cmds[1].at + 2 * WINDOW <= cmds[2].at
    ensures AnswerAt(cmds, 0) == 1 && AnswerAt(cmds, 2) == 1
  {
    hide WindowOf, QuotaKey;
    assert cmds[..0] == [] && cmds[..1] == [] + [cmds[0]] && cmds[..2] == cmds[..1] + [cmds[1]];
    RunAppend([], cmds[0]);
    RunAppend(cmds[..1], cmds[1]);
    assert Run(cmds[..1]) == map[key := Counter(1, None)];
    assert Run(cmds[..2]) == map[key := Counter(1, Some(cmds[1].at + 2 * WINDOW))];
  }

  lemma StretchedRun(account: string, skew: nat, latency: nat)
    requires 2 * skew + latency > WINDOW
    ensures var cmds := Stretched(account, skew, latency);
            AnswerAt(cmds, 0) == 1 && AnswerAt(cmds, 2) == 1 && cmds[0].Id() == cmds[2].Id()
  {
    hide WindowOf, QuotaKey, Timed, AnswerAt;
    StretchedIsTimed(account, skew, latency);
    var cmds := Stretched(account, skew, latency);
    ExpiredRun(cmds, cmds[0].Key());
  }

  /** Whatever the account, its quota holds in every run exactly when twice the
      clock skew plus the store's latency fits in one window. */
  lemma QuotaHoldsIff(account: string, skew: nat, latency: nat)
    ensures (forall cmds, id: Id, limit | Timed(cmds, skew, latency) && id.account == account ::
               Passed(cmds, |cmds|, id, limit) <= limit)
            <==> 2 * skew + latency <= WINDOW
  {
    if 2 * skew + latency <= WINDOW {
      forall cmds, id: Id, limit | Timed(cmds, skew, latency) && id.account == account
        ensures Passed(cmds, |cmds|, id, limit) <= limit
      {
        PassedWithinLimit(cmds, |cmds|, id, limit, skew, latency);
      }
    } else {
      var cmds := Stretched(account, skew, latency);
      StretchedIsTimed(account, skew, latency);
      StretchedRun(account, skew, latency);
      PassedBoth(cmds);
    }
  }

  lemma PassedBoth(cmds: seq<Command>)
    requires |cmds| == 3 && cmds[0].IncrBy? && cmds[1].ExpireNX? && cmds[2].IncrBy?
    requires AnswerAt(cmds, 0) == 1 && AnswerAt(cmds, 2) == 1 && cmds[0].Id() == cmds[2].Id()
    requires cmds[0].amount == 1 && cmds[2].amount == 1
    ensures Passed(cmds, 3, cmds[0].Id(), 1) == 2
  {
    hide AnswerAt;
    var id := cmds[0].Id();
    assert Passed(cmds, 1, id, 1) == 1;
    assert Passed(cmds, 2, id, 1) == 1;
  }

  // ---------- Checking one message ----------

  datatype Limits = Limits(messages: int, recipients: int)
  datatype Outcome = Allowed | Over(dimension: Dimension) | Unavailable

  function LimitFor(l: Limits, d: Dimension): int {
    match d case Messages => l.messages case Recipients => l.recipients
  }

  function AmountFor(recipients: int, d: Dimension): int {
    match d case Messages => 1 case Recipients => recipients
  }

  predicate Counted(l: Limits, recipients: int, d: Dimension) {
    LimitFor(l, d) > 0 && AmountFor(recipients, d) > 0
  }

  /** How much of a pipelined pair ran, when the reply does not come back. */
  datatype Fate = Answered | NothingRan | IncrRan | BothRan

  /** One increment: the clock that names its key, and what the other replicas
      run before and between its two commands. */
  datatype Call = Call(clock: nat, before: seq<Command>, at: nat, between: seq<Command>, expireAt: nat, fate: Fate)

  datatype Request = Request(gateway: string, account: string, recipients: int, limits: Limits)

  function Incr(r: Request, d: Dimension, call: Call): Command
    requires AmountFor(r.recipients, d) > 0
  {
    IncrBy(r.gateway, r.account, d, call.clock, call.at, AmountFor(r.recipients, d))
  }

  /** The commands that reach the store for one increment. */
  function Ran(r: Request, d: Dimension, call: Call): seq<Command>
    requires AmountFor(r.recipients, d) > 0
  {
    call.before
    + (if call.fate.NothingRan? then [] else [Incr(r, d, call)])
    + (if call.fate.NothingRan? || call.fate.IncrRan? then []
       else call.between + [ExpireNX(r.gateway, r.account, d, call.clock, call.expireAt)])
  }

  /** The log and the verdict of a check that still has `dims` to count. */
  function CheckDims(r: Request, calls: Dimension -> Call, dims: seq<Dimension>, log: seq<Command>)
    : (seq<Command>, Outcome)
  {
    if dims == [] then (log, Allowed)
    else
      var d := dims[0];
      if !Counted(r.limits, r.recipients, d) then CheckDims(r, calls, dims[1..], log)
      else
        var call := calls(d);
        var after := log + Ran(r, d, call);
        if !call.fate.Answered? then (after, Unavailable)
        else if Answer(Run(log + call.before), Incr(r, d, call)) > LimitFor(r.limits, d) then (after, Over(d))
        else CheckDims(r, calls, dims[1..], after)
  }

  const DIMENSIONS: seq<Dimension> := [Messages, Recipients]

  class QuotaStore {
    var counters: Store
    ghost var log: seq<Command>

    ghost predicate Valid()
      reads this
    {
      counters == Run(log)
    }

    constructor ()
      ensures Valid() && log == []
    {
      counters, log := map[], [];
    }

    method Apply(c: Command)
      requires Valid()
      modifies this
      ensures Valid() && log == old(log) + [c]
    {
      RunAppend(log, c);
      counters := Execute(counters, c);
      log := log + [c];
    }

    method ApplyAll(cmds: seq<Command>)
      requires Valid()
      modifies this
      ensures Valid() && log == old(log) + cmds
    {
      hide Run;
      for i := 0 to |cmds|
        invariant Valid() && log == old(log) + cmds[..i]
      {
        Apply(cmds[i]);
        assert cmds[..i + 1] == cmds[..i] + [cmds[i]];
      }
      assert cmds[..|cmds|] == cmds;
    }

    method Increment(r: Request, d: Dimension, call: Call) returns (count: Option<nat>)
      requires Valid() && AmountFor(r.recipients, d) > 0
      modifies this
      ensures Valid() && log == old(log) + Ran(r, d, call)
      ensures count == if call.fate.Answered?
                       then Some(Answer(Run(old(log) + call.before), Incr(r, d, call))) else None
    {
      hide Run, Execute, Answer;
      ApplyAll(call.before);
      if call.fate.NothingRan? {
        return None;
      }
      var answer := Answer(counters, Incr(r, d, call));
      Apply(Incr(r, d, call));
      if call.fate.IncrRan? {
        return None;
      }
      ApplyAll(call.between);
      Apply(ExpireNX(r.gateway, r.account, d, call.clock, call.expireAt));
      count := if call.fate.Answered? then Some(answer) else None;
    }

    method Check(r: Request, calls: Dimension -> Call) returns (outcome: Outcome)
      requires Valid()
      modifies this
      ensures Valid() && (log, outcome) == CheckDims(r, calls, DIMENSIONS, old(log))
    {
      hide Run, Ran, Answer, Incr;
      for i := 0 to |DIMENSIONS|
        invariant Valid()
        invariant CheckDims(r, calls, DIMENSIONS, old(log)) == CheckDims(r, calls, DIMENSIONS[i..], log)
      {
        var d := DIMENSIONS[i];
        assert DIMENSIONS[i..][1..] == DIMENSIONS[i + 1..];
        if !Counted(r.limits, r.recipients, d) {
          continue;
        }
        var count := Increment(r, d, calls(d));
        if count.None? {
          return Unavailable;
        }
        if count.value > LimitFor(r.limits, d) {
          return Over(d);
        }
      }
      return Allowed;
    }
  }

  /** The increment for `d` ran at position `i` of the log and was within its limit. */
  predicate WithinAt(log: seq<Command>, i: nat, r: Request, calls: Dimension -> Call, d: Dimension)
    requires Counted(r.limits, r.recipients, d)
  {
    i < |log| && log[i] == Incr(r, d, calls(d)) && Passes(log, i, LimitFor(r.limits, d))
  }

  lemma {:induction false} CheckGrows(r: Request, calls: Dimension -> Call, dims: seq<Dimension>, log: seq<Command>)
    ensures log <= CheckDims(r, calls, dims, log).0
  {
    hide Run, Answer, Ran;
    if dims != [] {
      var d := dims[0];
      CheckGrows(r, calls, dims[1..], log);
      if Counted(r.limits, r.recipients, d) {
        CheckGrows(r, calls, dims[1..], log + Ran(r, d, calls(d)));
      }
    }
  }

  /** A message is let through only after an increment within the limit for
      every dimension the gateway counts. */
  lemma {:induction false} AllowedWasCounted(r: Request, calls: Dimension -> Call, dims: seq<Dimension>,
                                             log: seq<Command>, d: Dimension)
    requires CheckDims(r, calls, dims, log).1 == Allowed
    requires d in dims && Counted(r.limits, r.recipients, d)
    ensures exists i :: |log| <= i && WithinAt(CheckDims(r, calls, dims, log).0, i, r, calls, d)
  {
    hide Run, Answer, WithinAt;
    var e := dims[0];
    if e == d {
      var call := calls(d);
      var start := log + call.before;
      var after := log + Ran(r, d, call);
      var i := |start|;
      assert after[..i] == start && after[i] == Incr(r, d, call);
      CheckGrows(r, calls, dims[1..], after);
      var end := CheckDims(r, calls, dims[1..], after).0;
      FirstWithin(r, calls, d, after, end, i);
    } else if Counted(r.limits, r.recipients, e) {
      AllowedWasCounted(r, calls, dims[1..], log + Ran(r, e, calls(e)), d);
    } else {
      AllowedWasCounted(r, calls, dims[1..], log, d);
    }
  }

  lemma FirstWithin(r: Request, calls: Dimension -> Call, d: Dimension, after: seq<Command>, end: seq<Command>, i: nat)
    requires Counted(r.limits, r.recipients, d)
    requires after <= end && i < |after| && after[i] == Incr(r, d, calls(d))
    requires Answer(Run(after[..i]), after[i]) <= LimitFor(r.limits, d)
    ensures WithinAt(end, i, r, calls, d)
  {
    hide Run, Answer;
    assert end[..i] == after[..i];
  }

  /** Position `i` of a log adds `amount` for the account in one dimension. */
  predicate CountedAt(log: seq<Command>, i: int, gateway: string, account: string, d: Dimension, amount: int) {
    0 <= i < |log| && log[i].IncrBy? && log[i].gateway == gateway && log[i].account == account
    && log[i].dimension == d && log[i].amount == amount
  }

  /** What letting a message through means: one message, and its recipients, each
      added to the log and answered within the limit that is declared. */
  lemma AllowedMeans(r: Request, calls: Dimension -> Call, log: seq<Command>)
    requires CheckDims(r, calls, DIMENSIONS, log).1 == Allowed
    ensures r.limits.messages > 0 ==>
              exists i | |log| <= i :: var after := CheckDims(r, calls, DIMENSIONS, log).0;
                CountedAt(after, i, r.gateway, r.account, Messages, 1) && AnswerAt(after, i) <= r.limits.messages
    ensures r.limits.recipients > 0 && r.recipients > 0 ==>
              exists i | |log| <= i :: var after := CheckDims(r, calls, DIMENSIONS, log).0;
                && CountedAt(after, i, r.gateway, r.account, Recipients, r.recipients)
                && AnswerAt(after, i) <= r.limits.recipients
  {
    hide CheckDims, AnswerAt;
    if r.limits.messages > 0 {
      AllowedWasCounted(r, calls, DIMENSIONS, log, Messages);
      var i :| |log| <= i && WithinAt(CheckDims(r, calls, DIMENSIONS, log).0, i, r, calls, Messages);
      assert CountedAt(CheckDims(r, calls, DIMENSIONS, log).0, i, r.gateway, r.account, Messages, 1);
    }
    if r.limits.recipients > 0 && r.recipients > 0 {
      AllowedWasCounted(r, calls, DIMENSIONS, log, Recipients);
      var i :| |log| <= i && WithinAt(CheckDims(r, calls, DIMENSIONS, log).0, i, r, calls, Recipients);
      assert CountedAt(CheckDims(r, calls, DIMENSIONS, log).0, i, r.gateway, r.account, Recipients, r.recipients);
    }
  }

  /** The increment for `d` went past its limit. */
  ghost predicate WentOver(log: seq<Command>, start: nat, r: Request, d: Dimension, amount: int, limit: int) {
    limit > 0 && exists i | start <= i :: CountedAt(log, i, r.gateway, r.account, d, amount) && AnswerAt(log, i) > limit
  }

  lemma OverAt(r: Request, d: Dimension, call: Call, log: seq<Command>)
    requires AmountFor(r.recipients, d) > 0 && call.fate.Answered?
    ensures var after, i := log + Ran(r, d, call), |log + call.before|;
            && CountedAt(after, i, r.gateway, r.account, d, AmountFor(r.recipients, d))
            && AnswerAt(after, i) == Answer(Run(log + call.before), Incr(r, d, call))
  {
    hide Run, Answer;
    var after, i := log + Ran(r, d, call), |log + call.before|;
    assert after[..i] == log + call.before && after[i] == Incr(r, d, call);
  }

  // A check of the dimensions from `d` on.
  lemma CheckOne(r: Request, calls: Dimension -> Call, dims: seq<Dimension>, d: Dimension, rest: seq<Dimension>,
                 log: seq<Command>)
    requires dims == [d] + rest
    ensures CheckDims(r, calls, dims, log)
            == if LimitFor(r.limits, d) <= 0 || AmountFor(r.recipients, d) <= 0 then CheckDims(r, calls, rest, log)
               else
                 var after := log + Ran(r, d, calls(d));
                 if !calls(d).fate.Answered? then (after, Unavailable)
                 else if Answer(Run(log + calls(d).before), Incr(r, d, calls(d))) > LimitFor(r.limits, d)
                 then (after, Over(d)) else CheckDims(r, calls, rest, after)
  {
    hide Run, Answer, Ran;
    assert dims[1..] == rest;
  }

  lemma CheckNone(r: Request, calls: Dimension -> Call, log: seq<Command>)
    ensures CheckDims(r, calls, [], log) == (log, Allowed)
  {
  }

  /** What a refusal means: an increment past a declared limit, or a store that
      did not answer for one. Where nothing is declared nothing is refused, and
      the store is not asked. */
  lemma RefusedMeans(r: Request, calls: Dimension -> Call, log: seq<Command>)
    ensures var (after, outcome) := CheckDims(r, calls, DIMENSIONS, log);
            && (outcome == Over(Messages) ==> WentOver(after, |log|, r, Messages, 1, r.limits.messages))
            && (outcome == Over(Recipients) ==>
                  r.recipients > 0 && WentOver(after, |log|, r, Recipients, r.recipients, r.limits.recipients))
            && (outcome == Unavailable ==>
                  (r.limits.messages > 0 && !calls(Messages).fate.Answered?)
                  || (r.limits.recipients > 0 && r.recipients > 0 && !calls(Recipients).fate.Answered?))
            && (r.limits.messages <= 0 && (r.limits.recipients <= 0 || r.recipients <= 0) ==>
                  after == log && outcome == Allowed)
  {
    hide Run, Answer, Ran, AnswerAt, WentOver, CheckDims;
    var next := if r.limits.messages > 0 then log + Ran(r, Messages, calls(Messages)) else log;
    var last := if r.limits.recipients > 0 && r.recipients > 0 then next + Ran(r, Recipients, calls(Recipients))
                else next;
    CheckOne(r, calls, DIMENSIONS, Messages, [Recipients], log);
    CheckOne(r, calls, [Recipients], Recipients, [], next);
    CheckNone(r, calls, last);
    if r.limits.messages > 0 && calls(Messages).fate.Answered? {
      OverMeans(r, Messages, calls(Messages), log, log);
    }
    if r.limits.recipients > 0 && r.recipients > 0 && calls(Recipients).fate.Answered? {
      OverMeans(r, Recipients, calls(Recipients), log, next);
    }
  }

  lemma OverMeans(r: Request, d: Dimension, call: Call, start: seq<Command>, log: seq<Command>)
    requires AmountFor(r.recipients, d) > 0 && LimitFor(r.limits, d) > 0 && call.fate.Answered? && start <= log
    ensures Answer(Run(log + call.before), Incr(r, d, call)) > LimitFor(r.limits, d) ==>
              WentOver(log + Ran(r, d, call), |start|, r, d, AmountFor(r.recipients, d), LimitFor(r.limits, d))
  {
    hide Run, Answer, Ran, AnswerAt;
    OverAt(r, d, call, log);
  }
}
