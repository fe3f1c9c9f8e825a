/** Making a configuration fit its size budget by leaving accounts out, largest
    first. Models `FitAccounts` of internal/render/render.go.
 */
module Fit {
  import opened Text
  import opened Accounts

  /** Marshalled sizes: of one account, and of a configuration with the given
      accounts. `None` is a marshalling error. */
  datatype Sizer = Sizer(account: Account -> Option<nat>, config: seq<Account> -> Option<nat>)

  // ---------- The order accounts are dropped in ----------

  predicate Before(accounts: seq<Account>, sizes: seq<nat>, i: nat, j: nat)
    requires i < |accounts| == |sizes| && j < |accounts|
  {
    sizes[i] > sizes[j] || (sizes[i] == sizes[j] && Less(accounts[i].username, accounts[j].username))
  }

  predicate Distinct(order: seq<nat>) {
    forall i, j :: 0 <= i < j < |order| ==> order[i] != order[j]
  }

  /** Every account once, none before a larger one; ties by username. */
  predicate IsOrder(accounts: seq<Account>, sizes: seq<nat>, order: seq<nat>) {
    && |sizes| == |accounts| == |order| && Distinct(order)
    && (forall i :: 0 <= i < |order| ==> order[i] < |accounts|)
    && (forall i, j :: 0 <= i < j < |order| ==>
          sizes[order[i]] > sizes[order[j]]
          || (sizes[order[i]] == sizes[order[j]]
              && !Less(accounts[order[j]].username, accounts[order[i]].username)))
  }

  predicate PartialOrder(accounts: seq<Account>, sizes: seq<nat>, order: seq<nat>, n: nat) {
    && |sizes| == |accounts| && n == |order| <= |accounts| && Distinct(order)
    && (forall i :: 0 <= i < n ==> order[i] < n)
    && (forall i, j :: 0 <= i < j < n ==> !Before(accounts, sizes, order[j], order[i]))
  }

  lemma BeforeTransitive(accounts: seq<Account>, sizes: seq<nat>, i: nat, j: nat, k: nat)
    requires i < |accounts| == |sizes| && j < |accounts| && k < |accounts|
    requires Before(accounts, sizes, i, j) && !Before(accounts, sizes, k, j)
    ensures Before(accounts, sizes, i, k)
  {
    var a, b, c := accounts[i].username, accounts[j].username, accounts[k].username;
    LessTotal(b, c);
    if Less(a, b) && Less(b, c) {
      LessTransitive(a, b, c);
    }
    hide Less;
  }

  // `x` put in at `k`, after nothing it comes before and before nothing that comes before it.
  lemma PlacedAt(accounts: seq<Account>, sizes: seq<nat>, order: seq<nat>, x: nat, k: nat)
    requires x < |accounts| && PartialOrder(accounts, sizes, order, x) && k <= |order|
    requires forall i :: 0 <= i < k ==> !Before(accounts, sizes, x, order[i])
    requires forall i :: k <= i < |order| ==> !Before(accounts, sizes, order[i], x)
    ensures PartialOrder(accounts, sizes, order[..k] + [x] + order[k..], x + 1)
  {
    hide Before;
    var out := order[..k] + [x] + order[k..];
    assert forall i :: 0 <= i < |out| ==> out[i] == if i < k then order[i] else if i == k then x else order[i - 1];
  }

  // One insertion: `x` goes in front of the accounts it comes before.
  method Place(accounts: seq<Account>, sizes: seq<nat>, order: seq<nat>, x: nat) returns (out: seq<nat>)
    requires x < |accounts| && PartialOrder(accounts, sizes, order, x)
    ensures PartialOrder(accounts, sizes, out, x + 1)
  {
    hide Before, Less;
    var k := |order|;
    while k > 0 && Before(accounts, sizes, x, order[k - 1])
      invariant 0 <= k <= |order|
      invariant forall i :: k <= i < |order| ==> Before(accounts, sizes, x, order[i])
    {
      k := k - 1;
    }
    forall i | 0 <= i < k ensures !Before(accounts, sizes, x, order[i]) {
      if Before(accounts, sizes, x, order[i]) && i < k - 1 {
        BeforeTransitive(accounts, sizes, x, order[i], order[k - 1]);
      }
    }
    forall i | k <= i < |order| ensures !Before(accounts, sizes, order[i], x) {
      BeforeAsymmetric(accounts, sizes, x, order[i]);
    }
    PlacedAt(accounts, sizes, order, x, k);
    out := order[..k] + [x] + order[k..];
  }

  lemma BeforeAsymmetric(accounts: seq<Account>, sizes: seq<nat>, i: nat, j: nat)
    requires i < |accounts| == |sizes| && j < |accounts|
    ensures !(Before(accounts, sizes, i, j) && Before(accounts, sizes, j, i))
  {
    LessTotal(accounts[i].username, accounts[j].username);
    hide Less;
  }

  method SortBySize(accounts: seq<Account>, sizes: seq<nat>) returns (order: seq<nat>)
    requires |sizes| == |accounts|
    ensures IsOrder(accounts, sizes, order)
  {
    order := [];
    for i := 0 to |accounts|
      invariant PartialOrder(accounts, sizes, order, i)
    {
      order := Place(accounts, sizes, order, i);
    }
  }

  // ---------- Dropping ----------

  /** The accounts not dropped, in their original order. */
  function Kept(accounts: seq<Account>, n: nat, dropped: set<nat>): seq<Account>
    requires n <= |accounts|
  {
    if n == 0 then []
    else Kept(accounts, n - 1, dropped) + if n - 1 in dropped then [] else [accounts[n - 1]]
  }

  function Prefix(order: seq<nat>, k: nat): set<nat>
    requires k <= |order|
  {
    set i | 0 <= i < k :: order[i]
  }

  function Names(accounts: seq<Account>, order: seq<nat>): seq<string>
    requires forall i :: 0 <= i < |order| ==> order[i] < |accounts|
  {
    seq(|order|, i requires 0 <= i < |order| => accounts[order[i]].username)
  }

  /** How many accounts to drop, trying `k` first: `None` when marshalling fails
      or nothing fits. */
  function Shortest(sizer: Sizer, accounts: seq<Account>, order: seq<nat>, budget: int, k: nat): Option<nat>
    decreases |order| + 1 - k
  {
    if k > |order| then None
    else match sizer.config(Kept(accounts, |accounts|, Prefix(order, k)))
      case None => None
      case Some(size) => if size <= budget then Some(k) else Shortest(sizer, accounts, order, budget, k + 1)
  }

  /** The first prefix of the order that fits, and no shorter one does. */
  lemma {:induction false} ShortestIsShortest(sizer: Sizer, accounts: seq<Account>, order: seq<nat>, budget: int,
                                              k: nat)
    requires Shortest(sizer, accounts, order, budget, k).Some?
    ensures var d := Shortest(sizer, accounts, order, budget, k).value;
            && k <= d <= |order|
            && (exists s | s <= budget :: sizer.config(Kept(accounts, |accounts|, Prefix(order, d))) == Some(s))
            && forall j | k <= j < d ::
                 exists s | s > budget :: sizer.config(Kept(accounts, |accounts|, Prefix(order, j))) == Some(s)
    decreases |order| + 1 - k
  {
    hide Kept, Prefix;
    var size := sizer.config(Kept(accounts, |accounts|, Prefix(order, k))).value;
    if size > budget {
      ShortestIsShortest(sizer, accounts, order, budget, k + 1);
    }
  }

  /** And where none fits, none does up to the first size that cannot be told. */
  lemma {:induction false} NoneFits(sizer: Sizer, accounts: seq<Account>, order: seq<nat>, budget: int, k: nat)
    returns (d: nat)
    requires k <= |order| + 1 && Shortest(sizer, accounts, order, budget, k).None?
    ensures k <= d <= |order| + 1
    ensures d <= |order| ==> sizer.config(Kept(accounts, |accounts|, Prefix(order, d))).None?
    ensures forall j | k <= j < d ::
              exists s | s > budget :: sizer.config(Kept(accounts, |accounts|, Prefix(order, j))) == Some(s)
    decreases |order| + 1 - k
  {
    hide Kept, Prefix;
    d := k;
    if k <= |order| && sizer.config(Kept(accounts, |accounts|, Prefix(order, k))).Some? {
      d := NoneFits(sizer, accounts, order, budget, k + 1);
    }
  }

  class Config {
    var accounts: seq<Account>

    constructor (accounts: seq<Account>)
      ensures this.accounts == accounts
    {
      this.accounts := accounts;
    }
  }

  function Sizes(sizer: Sizer, accounts: seq<Account>, n: nat): Option<seq<nat>>
    requires n <= |accounts|
  {
    if n == 0 then Some([])
    else match (Sizes(sizer, accounts, n - 1), sizer.account(accounts[n - 1]))
      case (Some(s), Some(x)) => Some(s + [x])
      case _ => None
  }

  lemma {:induction false} SizesNone(sizer: Sizer, accounts: seq<Account>, m: nat, n: nat)
    requires m <= n <= |accounts| && Sizes(sizer, accounts, m).None?
    ensures Sizes(sizer, accounts, n).None?
  {
    if m < n {
      SizesNone(sizer, accounts, m, n - 1);
    }
  }

  lemma {:induction false} SizesAre(sizer: Sizer, accounts: seq<Account>, n: nat)
    requires n <= |accounts| && Sizes(sizer, accounts, n).Some?
    ensures var s := Sizes(sizer, accounts, n).value;
            |s| == n && forall i :: 0 <= i < n ==> sizer.account(accounts[i]) == Some(s[i])
  {
    if n > 0 {
      SizesAre(sizer, accounts, n - 1);
    }
  }

  method Measure(sizer: Sizer, accounts: seq<Account>) returns (sizes: Option<seq<nat>>)
    ensures sizes == Sizes(sizer, accounts, |accounts|)
    ensures sizes.Some? ==> |sizes.value| == |accounts|
  {
    var s: seq<nat> := [];
    for i := 0 to |accounts|
      invariant Sizes(sizer, accounts, i) == Some(s) && |s| == i
    {
      match sizer.account(accounts[i]) {
        case None =>
          SizesNone(sizer, accounts, i + 1, |accounts|);
          return None;
        case Some(x) => s := s + [x];
      }
    }
    return Some(s);
  }

  method Keep(accounts: seq<Account>, dropped: set<nat>) returns (kept: seq<Account>)
    ensures kept == Kept(accounts, |accounts|, dropped)
  {
    kept := [];
    for i := 0 to |accounts|
      invariant kept == Kept(accounts, i, dropped)
    {
      if i !in dropped {
        kept := kept + [accounts[i]];
      }
    }
  }

  /** `kept` is what is left of `all`. */
  ghost predicate FitsTo(sizer: Sizer, budget: int, all: seq<Account>, order: seq<nat>, kept: seq<Account>,
                         names: seq<string>)
  {
    var whole := sizer.config(all);
    if whole.None? || whole.value <= budget || Sizes(sizer, all, |all|).None? then kept == all && names == []
    else
      && IsOrder(all, Sizes(sizer, all, |all|).value, order)
      && match Shortest(sizer, all, order, budget, 1)
         case None => kept == all && names == []
         case Some(k) =>
           && k <= |order| && |names| == k && (forall i :: 0 <= i < k ==> names[i] == all[order[i]].username)
           && kept == Kept(all, |all|, Prefix(order, k))
  }

  /** Drops the shortest prefix of the order that makes the configuration fit;
      leaves it alone when it already fits or when no prefix does. */
  method FitAccounts(cfg: Config, sizer: Sizer, budget: int) returns (names: seq<string>, ghost order: seq<nat>)
    modifies cfg
    ensures FitsTo(sizer, budget, old(cfg.accounts), order, cfg.accounts, names)
  {
    order := [];
    var all := cfg.accounts;
    var whole := sizer.config(all);
    if whole.None? || whole.value <= budget {
      return [], [];
    }
    var sizes := Measure(sizer, all);
    if sizes.None? {
      return [], [];
    }
    var walk := SortBySize(all, sizes.value);
    order := walk;
    var dropped: set<nat> := {};
    names := [];
    hide Kept, Before;
    for i := 0 to |walk|
      invariant dropped == Prefix(walk, i) && names == Names(all, walk[..i]) && cfg.accounts == all
      invariant Shortest(sizer, all, walk, budget, 1) == Shortest(sizer, all, walk, budget, i + 1)
    {
      dropped := dropped + {walk[i]};
      names := names + [all[walk[i]].username];
      assert dropped == Prefix(walk, i + 1);
      assert names == Names(all, walk[..i + 1]);
      var kept := Keep(all, dropped);
      var size := sizer.config(kept);
      if size.None? {
        return [], walk;
      }
      if size.value <= budget {
        cfg.accounts := kept;
        return names, walk;
      }
    }
    return [], walk;
  }

  // ---------- Nothing smaller would do ----------

  ghost function Pick(s: set<nat>): (x: nat)
    requires s != {}
    ensures x in s
  {
    var x :| x in s;
    x
  }

  ghost function SetSum(sizes: seq<nat>, s: set<nat>): nat
    requires forall x | x in s :: x < |sizes|
  {
    if s == {} then 0 else sizes[Pick(s)] + SetSum(sizes, s - {Pick(s)})
  }

  lemma {:induction false} SetSumRemove(sizes: seq<nat>, s: set<nat>, y: nat)
    requires y in s && forall x | x in s :: x < |sizes|
    ensures SetSum(sizes, s) == sizes[y] + SetSum(sizes, s - {y})
  {
    var x := Pick(s);
    if x != y {
      SetSumRemove(sizes, s - {x}, y);
      SetSumRemove(sizes, s - {y}, x);
      assert s - {x} - {y} == s - {y} - {x};
    }
  }

  lemma PrefixStep(order: seq<nat>, m: nat)
    requires 0 < m <= |order| && Distinct(order)
    ensures Prefix(order, m) == Prefix(order, m - 1) + {order[m - 1]}
    ensures order[m - 1] !in Prefix(order, m - 1)
  {
  }

  lemma PrefixSumStep(sizes: seq<nat>, order: seq<nat>, m: nat)
    requires 0 < m <= |order| && Distinct(order) && forall i :: 0 <= i < |order| ==> order[i] < |sizes|
    ensures SetSum(sizes, Prefix(order, m)) == sizes[order[m - 1]] + SetSum(sizes, Prefix(order, m - 1))
  {
    PrefixStep(order, m);
    SetSumRemove(sizes, Prefix(order, m), order[m - 1]);
    assert Prefix(order, m) - {order[m - 1]} == Prefix(order, m - 1);
  }

  lemma OrderDescends(accounts: seq<Account>, sizes: seq<nat>, order: seq<nat>, i: nat, j: nat)
    requires IsOrder(accounts, sizes, order) && i <= j < |order|
    ensures sizes[order[j]] <= sizes[order[i]]
  {
    hide Less;
    assert i == j || !Before(accounts, sizes, order[j], order[i]);
  }

  lemma PrefixBound(accounts: seq<Account>, sizes: seq<nat>, order: seq<nat>, n: nat)
    requires IsOrder(accounts, sizes, order) && n <= |order|
    ensures forall x | x in Prefix(order, n) :: x < |sizes|
    ensures n == 0 ==> Prefix(order, n) == {}
  {
    hide Before, Distinct;
  }

  // Adding the `n`-th of an order to the `m - 1` first adds at most the `m`-th.
  lemma LargestStep(accounts: seq<Account>, sizes: seq<nat>, order: seq<nat>, n: nat, m: nat)
    requires IsOrder(accounts, sizes, order) && 0 < m <= n <= |order|
    ensures order[n - 1] < |sizes|
    ensures forall x | x in Prefix(order, m) :: x < |sizes|
    ensures sizes[order[n - 1]] + SetSum(sizes, Prefix(order, m - 1)) <= SetSum(sizes, Prefix(order, m))
  {
    hide Before, Distinct, SetSum, Prefix;
    PrefixBound(accounts, sizes, order, m);
    PrefixBound(accounts, sizes, order, m - 1);
    PrefixSumStep(sizes, order, m);
    OrderDescends(accounts, sizes, order, m - 1, n - 1);
  }

  // The `m` first of an order outweigh any `m` others.
  lemma {:induction false} LargestFirst(accounts: seq<Account>, sizes: seq<nat>, order: seq<nat>, n: nat, d: set<nat>)
    requires IsOrder(accounts, sizes, order) && n <= |order| && d <= Prefix(order, n)
    ensures forall x | x in d :: x < |sizes|
    ensures |d| <= n && (forall x | x in Prefix(order, |d|) :: x < |sizes|)
    ensures SetSum(sizes, d) <= SetSum(sizes, Prefix(order, |d|))
    decreases n
  {
    hide Before, Distinct, SetSum, Prefix;
    PrefixBound(accounts, sizes, order, n);
    if n > 0 {
      var x := order[n - 1];
      PrefixStep(order, n);
      if x in d {
        var e, m := d - {x}, |d|;
        LargestFirst(accounts, sizes, order, n - 1, e);
        SetSumRemove(sizes, d, x);
        LargestStep(accounts, sizes, order, n, m);
      } else {
        LargestFirst(accounts, sizes, order, n - 1, d);
      }
    } else {
      assert d == {};
    }
  }

  /** The accounts' own sizes, added up. */
  function Weight(sizer: Sizer, accounts: seq<Account>, n: nat): nat
    requires n <= |accounts|
  {
    if n == 0 then 0
    else Weight(sizer, accounts, n - 1)
         + match sizer.account(accounts[n - 1]) case None => 0 case Some(x) => x
  }

  /** The configuration's size is a fixed part plus its accounts' sizes. */
  ghost predicate Additive(sizer: Sizer, base: nat) {
    forall accounts: seq<Account> ::
      sizer.config(accounts) == Some(base + Weight(sizer, accounts, |accounts|))
  }

  lemma {:induction false} WeightPrefix(sizer: Sizer, a: seq<Account>, b: seq<Account>, n: nat)
    requires n <= |a| && n <= |b| && a[..n] == b[..n]
    ensures Weight(sizer, a, n) == Weight(sizer, b, n)
  {
    if n > 0 {
      assert a[n - 1] == a[..n][n - 1] == b[..n][n - 1] == b[n - 1];
      assert a[..n - 1] == a[..n][..n - 1] == b[..n][..n - 1] == b[..n - 1];
      WeightPrefix(sizer, a, b, n - 1);
    }
  }

  ghost function Below(d: set<nat>, n: nat): set<nat> {
    set x | x in d && x < n
  }

  // What is kept and what is dropped add up to everything.
  /** What is kept stands in its old order, with nothing else between. */
  lemma {:induction false} KeptIs(accounts: seq<Account>, n: nat, d: set<nat>)
    requires n <= |accounts|
    ensures |Kept(accounts, n, d)| == n - |Below(d, n)|
    ensures forall i | 0 <= i < n && i !in d ::
              0 <= i - |Below(d, i)| < |Kept(accounts, n, d)| && Kept(accounts, n, d)[i - |Below(d, i)|] == accounts[i]
  {
    if n == 0 {
      assert Below(d, 0) == {};
    } else {
      KeptIs(accounts, n - 1, d);
      if n - 1 in d {
        assert Below(d, n) == Below(d, n - 1) + {n - 1};
      } else {
        assert Below(d, n) == Below(d, n - 1);
      }
    }
  }

  lemma {:induction false} KeptWeight(sizer: Sizer, accounts: seq<Account>, sizes: seq<nat>, n: nat, d: set<nat>)
    requires n <= |accounts| == |sizes|
    requires forall i :: 0 <= i < |accounts| ==> sizer.account(accounts[i]) == Some(sizes[i])
    ensures var kept := Kept(accounts, n, d);
            Weight(sizer, kept, |kept|) + SetSum(sizes, Below(d, n)) == Weight(sizer, accounts, n)
  {
    if n > 0 {
      KeptWeight(sizer, accounts, sizes, n - 1, d);
      var before, kept := Kept(accounts, n - 1, d), Kept(accounts, n, d);
      if n - 1 in d {
        SetSumRemove(sizes, Below(d, n), n - 1);
        assert Below(d, n) - {n - 1} == Below(d, n - 1);
        assert kept == before;
      } else {
        assert Below(d, n) == Below(d, n - 1);
        assert kept[..|before|] == before == before[..|before|];
        WeightPrefix(sizer, kept, before, |before|);
      }
    } else {
      assert Below(d, 0) == {};
    }
  }

  lemma {:induction false} OrderCovers(order: seq<nat>, n: nat)
    requires Distinct(order) && n <= |order|
    ensures |Prefix(order, n)| == n
  {
    if n > 0 {
      OrderCovers(order, n - 1);
      PrefixStep(order, n);
    } else {
      assert Prefix(order, 0) == {};
    }
  }

  lemma AllIndices(order: seq<nat>, n: nat, x: nat)
    requires Distinct(order) && |order| == n && (forall i :: 0 <= i < n ==> order[i] < n) && x < n
    ensures x in Prefix(order, n)
  {
    OrderCovers(order, n);
    assert Prefix(order, n) <= UpTo(n);
    if x !in Prefix(order, n) {
      Smaller(Prefix(order, n), UpTo(n));
    }
  }

  ghost function UpTo(n: nat): (s: set<nat>)
    ensures |s| == n && forall x: nat :: x in s <==> x < n
  {
    if n == 0 then {} else UpTo(n - 1) + {n - 1}
  }

  lemma Smaller(a: set<nat>, b: set<nat>)
    requires a < b
    ensures |a| < |b|
  {
    assert |b - a| > 0;
    assert b == a + (b - a);
  }

  /** With additive sizes the greedy choice is optimal: no set of fewer accounts
      could have been left out instead. */
  lemma GreedyIsOptimal(sizer: Sizer, base: nat, accounts: seq<Account>, order: seq<nat>, budget: int, d: set<nat>)
    requires Additive(sizer, base) && Sizes(sizer, accounts, |accounts|).Some?
    requires IsOrder(accounts, Sizes(sizer, accounts, |accounts|).value, order)
    requires sizer.config(accounts).Some? && sizer.config(accounts).value > budget
    requires Shortest(sizer, accounts, order, budget, 1).Some?
    requires forall x | x in d :: x < |accounts|
    requires |d| < Shortest(sizer, accounts, order, budget, 1).value
    ensures exists s | s > budget :: sizer.config(Kept(accounts, |accounts|, d)) == Some(s)
  {
    var n, k := |accounts|, Shortest(sizer, accounts, order, budget, 1).value;
    var sizes := Sizes(sizer, accounts, n).value;
    SizesAre(sizer, accounts, n);
    ShortestIsShortest(sizer, accounts, order, budget, 1);
    hide Shortest, Sizes;
    var greedy := Prefix(order, |d|);
    KeptWeight(sizer, accounts, sizes, n, d);
    KeptWeight(sizer, accounts, sizes, n, greedy);
    assert Below(d, n) == d && Below(greedy, n) == greedy;
    forall x | x in d ensures x in Prefix(order, n) { AllIndices(order, n, x); }
    LargestFirst(accounts, sizes, order, n, d);
    if |d| == 0 {
      assert greedy == {};
      KeepAll(accounts, n);
    }
  }

  lemma {:induction false} KeepAll(accounts: seq<Account>, n: nat)
    requires n <= |accounts|
    ensures Kept(accounts, n, {}) == accounts[..n]
    ensures n == |accounts| ==> Kept(accounts, n, {}) == accounts
  {
    if n > 0 {
      KeepAll(accounts, n - 1);
    }
  }

  /** With distinct usernames the order is fixed by the accounts alone, so the
      same configuration always loses the same accounts. */
  lemma {:induction false} OrderIsUnique(accounts: seq<Account>, sizes: seq<nat>, a: seq<nat>, b: seq<nat>, i: nat)
    requires IsOrder(accounts, sizes, a) && IsOrder(accounts, sizes, b) && i <= |a|
    requires forall x, y :: 0 <= x < y < |accounts| ==> accounts[x].username != accounts[y].username
    ensures a[..i] == b[..i]
  {
    if i > 0 {
      OrderIsUnique(accounts, sizes, a, b, i - 1);
      var x, y := a[i - 1], b[i - 1];
      if x != y {
        Later(accounts, a, b, i - 1);
        Later(accounts, b, a, i - 1);
        var p :| i - 1 < p < |b| && b[p] == x;
        var q :| i - 1 < q < |a| && a[q] == y;
        assert !Before(accounts, sizes, x, y) && !Before(accounts, sizes, y, x);
        LessTotal(accounts[x].username, accounts[y].username);
        assert false;
      }
    }
  }

  // An index not among the common first ones shows up later in the other order.
  lemma Later(accounts: seq<Account>, a: seq<nat>, b: seq<nat>, i: nat)
    requires |a| == |b| == |accounts| && i < |a| && Distinct(a) && Distinct(b) && a[..i] == b[..i] && a[i] != b[i]
    requires forall k :: 0 <= k < |a| ==> a[k] < |accounts| && b[k] < |accounts|
    ensures exists p :: i < p < |b| && b[p] == a[i]
  {
    AllIndices(b, |b|, a[i]);
    var p :| 0 <= p < |b| && b[p] == a[i];
    assert forall k :: 0 <= k < i ==> a[k] == a[..i][k] == b[..i][k] == b[k];
    assert !(p < i);
  }
}
