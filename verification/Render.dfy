/** From the cluster to the accounts of a configuration: collected, sorted by
    name and cut to the size budget. Models the account part of `GatewayConfig`
    of internal/render/render.go and the steps of `Reconcile` around it.
 */
module Render {
  import opened Text
  import opened Accounts
  import Access
  import Fit

  /** What a configuration is rendered from: the gateway, the cluster as it was
      read and the accounts listed. */
  datatype Origin = Origin(gw: Access.Gateway, cluster: Access.Cluster, ns: string, list: seq<Access.MailoutAccount>)

  predicate ByName(accounts: seq<Account>) {
    forall i, j :: 0 <= i < j < |accounts| ==> !Less(accounts[j].username, accounts[i].username)
  }

  /** `accounts` is what is left of a collection once sorted and cut. */
  ghost predicate RenderedFrom(accounts: seq<Account>, o: Origin, collected: seq<Account>, sorted: seq<Account>,
                               dropped: set<nat>)
  {
    && Access.Collects(o.list, collected, o.gw, o.cluster, o.ns)
    && ByName(sorted) && multiset(sorted) == multiset(collected)
    && accounts == Fit.Kept(sorted, |sorted|, dropped)
  }

  ghost predicate Rendered(accounts: seq<Account>, o: Origin) {
    exists collected, sorted, dropped :: RenderedFrom(accounts, o, collected, sorted, dropped)
  }

  // ---------- Sorting ----------

  lemma NotBefore(x: string, y: string, z: string)
    requires !Less(x, z) && !Less(z, y)
    ensures !Less(x, y)
  {
    hide Less;
    LessTotal(x, y);
    LessTotal(y, z);
    if Less(x, y) && y != z {
      LessTransitive(x, y, z);
    }
  }

  lemma PlacedOnce(s: seq<Account>, k: nat, x: Account)
    requires k <= |s|
    ensures multiset(s[..k] + [x] + s[k..]) == multiset(s + [x])
  {
    assert s == s[..k] + s[k..];
  }

  lemma PlacedByName(s: seq<Account>, k: nat, x: Account)
    requires ByName(s) && k <= |s|
    requires k > 0 ==> !Less(x.username, s[k - 1].username)
    requires forall i :: k <= i < |s| ==> Less(x.username, s[i].username)
    ensures ByName(s[..k] + [x] + s[k..])
  {
    hide Less;
    var r := s[..k] + [x] + s[k..];
    assert forall i :: 0 <= i < |r| ==> r[i] == if i < k then s[i] else if i == k then x else s[i - 1];
    forall i, j | 0 <= i < j < |r| ensures !Less(r[j].username, r[i].username) {
      if j == k && i < k - 1 {
        NotBefore(x.username, s[i].username, s[k - 1].username);
      } else if i == k {
        LessTotal(s[j - 1].username, x.username);
      }
    }
  }

  method SortByName(accounts: seq<Account>) returns (sorted: seq<Account>)
    ensures ByName(sorted) && multiset(sorted) == multiset(accounts)
  {
    hide Less;
    sorted := [];
    for i := 0 to |accounts|
      invariant ByName(sorted) && multiset(sorted) == multiset(accounts[..i])
    {
      var x, k := accounts[i], |sorted|;
      while k > 0 && Less(x.username, sorted[k - 1].username)
        invariant 0 <= k <= |sorted|
        invariant forall j :: k <= j < |sorted| ==> Less(x.username, sorted[j].username)
      {
        k := k - 1;
      }
      PlacedByName(sorted, k, x);
      PlacedOnce(sorted, k, x);
      sorted := sorted[..k] + [x] + sorted[k..];
      assert accounts[..i + 1] == accounts[..i] + [x];
    }
    assert accounts[..|accounts|] == accounts;
  }

  // ---------- Rendering ----------

  /** Collect, sort, cut. It fails exactly when the collection does, and drops no
      more than the budget asks for. */
  method RenderAccounts(o: Origin, sizer: Fit.Sizer, budget: int)
    returns (r: Access.Result<seq<Account>>, names: seq<string>, ghost sorted: seq<Account>, ghost order: seq<nat>)
    ensures r.Err? <==> exists a | a in o.list :: Access.Blocks(a, o.gw, o.cluster, o.ns)
    ensures r.Ok? ==> Rendered(r.value, o) && ByName(sorted)
                      && Fit.FitsTo(sizer, budget, sorted, order, r.value, names)
    ensures r.Ok? ==> exists collected :: Access.Collects(o.list, collected, o.gw, o.cluster, o.ns)
                                          && multiset(sorted) == multiset(collected)
  {
    hide Access.Blocks, Access.Collects, ByName, Fit.Kept, Fit.IsOrder, Fit.Shortest;
    names, sorted, order := [], [], [];
    var collected := Access.CollectAccounts(o.list, o.gw, o.cluster, o.ns);
    if collected.Err? {
      r := Access.Err;
      return;
    }
    var byName := SortByName(collected.value);
    sorted := byName;
    var cfg := new Fit.Config(byName);
    names, order := Fit.FitAccounts(cfg, sizer, budget);
    Fit.KeepAll(sorted, |sorted|);
    ghost var dropped := if cfg.accounts == sorted then {}
                         else Fit.Prefix(order, Fit.Shortest(sizer, sorted, order, budget, 1).value);
    assert RenderedFrom(cfg.accounts, o, collected.value, sorted, dropped);
    r := Access.Ok(cfg.accounts);
  }

  lemma {:induction false} KeptMembers(accounts: seq<Account>, n: nat, dropped: set<nat>)
    requires n <= |accounts|
    ensures forall r | r in Fit.Kept(accounts, n, dropped) :: r in accounts
  {
    if n > 0 {
      KeptMembers(accounts, n - 1, dropped);
    }
  }

  /** Every account of a rendered configuration was resolved from one account of
      the cluster that this gateway serves. */
  lemma RenderedIsServed(accounts: seq<Account>, o: Origin, r: Account) returns (a: Access.MailoutAccount)
    requires Rendered(accounts, o) && r in accounts
    ensures a in o.list && Access.Qualifies(a, o.gw, o.cluster, o.ns) && Access.CarriedOver(a, r, o.gw, o.cluster)
  {
    hide Access.ServedAs, Access.Collects, Access.Qualifies, Access.CarriedOver, ByName;
    var collected, sorted, dropped :| RenderedFrom(accounts, o, collected, sorted, dropped);
    KeptMembers(sorted, |sorted|, dropped);
    assert r in multiset(sorted);
    a := Access.CollectedFrom(o.list, collected, o.gw, o.cluster, o.ns, r);
    Access.ServedAsIff(a, r, o.gw, o.cluster, o.ns);
  }
}
