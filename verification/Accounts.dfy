/** Which accounts of a configuration are served. Models `PartitionAccounts` and
    `ValidUsername` of internal/gateway/config.go and the quota key of
    internal/gateway/ratelimit.go that relies on them.
 */
module Accounts {
  import opened Text

  datatype Account = Account(
    username: string,
    passwordHash: string,
    disabled: bool,
    allowedSenders: seq<string>,
    skipHeaderFromCheck: bool)

  const MAX_USERNAME_LENGTH := 128
  const MIN_BCRYPT_COST := 10
  const MAX_BCRYPT_COST := 14

  const DELIMITERS: set<char> := {':', ';', ',', '"', '\\'}

  predicate UsernameByte(b: char) {
    ' ' < b <= '~' && b !in DELIMITERS
  }

  predicate UsernameOk(u: string) {
    u != [] && |u| <= MAX_USERNAME_LENGTH && forall i :: 0 <= i < |u| ==> UsernameByte(u[i])
  }

  /** 1 to 128 visible characters, none of them a delimiter. */
  predicate WellNamed(u: string) {
    1 <= |u| <= 128 && forall c | c in u :: 0x21 <= c as int <= 0x7E && c !in ":;,\"\\"
  }

  method ValidUsername(username: string) returns (ok: bool)
    ensures ok <==> UsernameOk(username)
    ensures ok <==> WellNamed(username)
  {
    NamedIff(username);
    if username == [] || |username| > MAX_USERNAME_LENGTH {
      return false;
    }
    for i := 0 to |username|
      invariant forall k :: 0 <= k < i ==> UsernameByte(username[k])
    {
      if !UsernameByte(username[i]) {
        return false;
      }
    }
    return true;
  }

  /** `cost` reads the cost out of a bcrypt hash, if it is one. */
  predicate UsableHash(cost: string -> Option<int>, hash: string) {
    match cost(hash)
    case None => false
    case Some(c) => MIN_BCRYPT_COST <= c <= MAX_BCRYPT_COST
  }

  datatype Reason = Unnamed | Duplicate | BadUsername | NoHash | BadHash
  datatype Rejected = Rejected(index: nat, reason: Reason)

  /** The account is fit to be served, whatever the others are. */
  predicate Servable(cost: string -> Option<int>, a: Account) {
    UsernameOk(a.username) && a.passwordHash != [] && UsableHash(cost, a.passwordHash)
  }

  /** Some earlier account is served under the same name. */
  predicate Taken(cost: string -> Option<int>, accounts: seq<Account>, i: nat)
    requires i < |accounts|
  {
    exists j :: 0 <= j < i && Servable(cost, accounts[j]) && accounts[j].username == accounts[i].username
  }

  predicate IsServed(cost: string -> Option<int>, accounts: seq<Account>, i: nat)
    requires i < |accounts|
  {
    Servable(cost, accounts[i]) && !Taken(cost, accounts, i)
  }

  function WhyNot(cost: string -> Option<int>, accounts: seq<Account>, i: nat): Reason
    requires i < |accounts|
  {
    var a := accounts[i];
    if a.username == [] then Unnamed
    else if Taken(cost, accounts, i) then Duplicate
    else if !UsernameOk(a.username) then BadUsername
    else if a.passwordHash == [] then NoHash
    else BadHash
  }

  function Served(cost: string -> Option<int>, accounts: seq<Account>, n: nat): seq<Account>
    requires n <= |accounts|
  {
    if n == 0 then []
    else Served(cost, accounts, n - 1) + if IsServed(cost, accounts, n - 1) then [accounts[n - 1]] else []
  }

  function Rejections(cost: string -> Option<int>, accounts: seq<Account>, n: nat): seq<Rejected>
    requires n <= |accounts|
  {
    if n == 0 then []
    else Rejections(cost, accounts, n - 1)
         + if IsServed(cost, accounts, n - 1) then []
           else [Rejected(n - 1, WhyNot(cost, accounts, n - 1))]
  }

  /** Every account in order, either served or rejected with its reason. */
  predicate Partitions(cost: string -> Option<int>, accounts: seq<Account>, served: seq<Account>,
                       rejected: seq<Rejected>)
  {
    served == Served(cost, accounts, |accounts|) && rejected == Rejections(cost, accounts, |accounts|)
  }

  /** What an account needs to be served: a well formed name and a bcrypt hash
      that costs 10 to 14. */
  predicate WellFormed(cost: string -> Option<int>, a: Account) {
    && WellNamed(a.username)
    && a.passwordHash != [] && cost(a.passwordHash).Some? && 10 <= cost(a.passwordHash).value <= 14
  }

  lemma ServableIff(cost: string -> Option<int>, a: Account)
    ensures Servable(cost, a) <==> WellFormed(cost, a)
  {
    NamedIff(a.username);
  }

  /** The first well formed account of each name is served. */
  lemma ServedIff(cost: string -> Option<int>, accounts: seq<Account>, i: nat)
    requires i < |accounts|
    ensures IsServed(cost, accounts, i) <==>
              WellFormed(cost, accounts[i])
              && forall j :: 0 <= j < i && accounts[j].username == accounts[i].username ==>
                               !WellFormed(cost, accounts[j])
  {
    hide Servable, WellFormed;
    forall j | 0 <= j < |accounts| ensures Servable(cost, accounts[j]) <==> WellFormed(cost, accounts[j]) {
      ServableIff(cost, accounts[j]);
    }
  }

  /** Why the others are not: what is wrong with an account by itself, or the
      earlier account that is served under its name. */
  lemma WhyNotIff(cost: string -> Option<int>, accounts: seq<Account>, i: nat)
    requires i < |accounts| && !IsServed(cost, accounts, i)
    ensures var a, why := accounts[i], WhyNot(cost, accounts, i);
            var taken := exists j :: 0 <= j < i && accounts[j].username == a.username && WellFormed(cost, accounts[j]);
            && (why == Unnamed <==> a.username == [])
            && (why == Duplicate <==> taken)
            && (why == BadUsername <==> !taken && a.username != [] && !WellNamed(a.username))
            && (why == NoHash <==> !taken && WellNamed(a.username) && a.passwordHash == [])
            && (why == BadHash <==> !taken && WellNamed(a.username) && a.passwordHash != [])
  {
    forall j | 0 <= j < |accounts|
      ensures Servable(cost, accounts[j]) <==> WellFormed(cost, accounts[j])
      ensures UsernameOk(accounts[j].username) <==> WellNamed(accounts[j].username)
    {
      ServableIff(cost, accounts[j]);
      NamedIff(accounts[j].username);
    }
    hide UsernameOk, UsableHash;
  }

  lemma NamedIff(u: string)
    ensures UsernameOk(u) <==> WellNamed(u)
  {
    assert forall i :: 0 <= i < |u| ==> u[i] in u;
  }

  method PartitionAccounts(cost: string -> Option<int>, accounts: seq<Account>)
    returns (served: seq<Account>, rejected: seq<Rejected>)
    ensures Partitions(cost, accounts, served, rejected)
  {
    served, rejected := [], [];
    var seen: set<string> := {};
    for i := 0 to |accounts|
      invariant served == Served(cost, accounts, i) && rejected == Rejections(cost, accounts, i)
      invariant forall u :: u in seen <==>
                  exists j :: 0 <= j < i && Servable(cost, accounts[j]) && accounts[j].username == u
    {
      var account := accounts[i];
      var valid := ValidUsername(account.username);
      if account.username == [] {
        rejected := rejected + [Rejected(i, Unnamed)];
      } else if account.username in seen {
        rejected := rejected + [Rejected(i, Duplicate)];
      } else if !valid {
        rejected := rejected + [Rejected(i, BadUsername)];
      } else if account.passwordHash == [] {
        rejected := rejected + [Rejected(i, NoHash)];
      } else if !UsableHash(cost, account.passwordHash) {
        rejected := rejected + [Rejected(i, BadHash)];
      } else {
        seen := seen + {account.username};
        served := served + [account];
      }
    }
  }

  lemma {:induction false} ServedMembers(cost: string -> Option<int>, accounts: seq<Account>, n: nat)
    requires n <= |accounts|
    ensures forall a :: a in Served(cost, accounts, n)
                        <==> exists i :: 0 <= i < n && IsServed(cost, accounts, i) && accounts[i] == a
    ensures |Served(cost, accounts, n)| + |Rejections(cost, accounts, n)| == n
  {
    hide IsServed, WhyNot;
    if n > 0 {
      ServedMembers(cost, accounts, n - 1);
    }
  }

  predicate Offered(cost: string -> Option<int>, accounts: seq<Account>, n: nat, u: string)
    requires n <= |accounts|
  {
    exists i :: 0 <= i < n && Servable(cost, accounts[i]) && accounts[i].username == u
  }

  // No two positions of the served list carry one name.
  lemma {:induction false} ServedOnce(cost: string -> Option<int>, accounts: seq<Account>, n: nat)
    requires n <= |accounts|
    ensures var served := Served(cost, accounts, n);
            forall i, j :: 0 <= i < j < |served| ==> served[i].username != served[j].username
  {
    hide Servable;
    if n > 0 {
      ServedOnce(cost, accounts, n - 1);
      ServedMembers(cost, accounts, n - 1);
      var before := Served(cost, accounts, n - 1);
      if IsServed(cost, accounts, n - 1) {
        forall i | 0 <= i < |before| ensures before[i].username != accounts[n - 1].username {
          assert before[i] in before;
          var k :| 0 <= k < n - 1 && IsServed(cost, accounts, k) && accounts[k] == before[i];
        }
      }
    }
  }

  /** A name is served exactly when some account well formed by itself carries
      it, and by exactly one account: a broken account takes nothing from the
      others. */
  lemma {:induction false} ServedIsExact(cost: string -> Option<int>, accounts: seq<Account>, n: nat, u: string)
    requires n <= |accounts|
    ensures (exists a | a in Served(cost, accounts, n) :: a.username == u) <==> Offered(cost, accounts, n, u)
    ensures var served := Served(cost, accounts, n);
            forall i, j :: 0 <= i < j < |served| ==> served[i].username != served[j].username
    ensures forall a | a in Served(cost, accounts, n) :: a in accounts && Servable(cost, a)
  {
    hide Servable, Served;
    ServedMembers(cost, accounts, n);
    if Offered(cost, accounts, n, u) {
      var i := FirstOffer(cost, accounts, n, u);
      assert accounts[i] in Served(cost, accounts, n);
    }
    ServedOnce(cost, accounts, n);
  }

  lemma {:induction false} FirstOffer(cost: string -> Option<int>, accounts: seq<Account>, n: nat, u: string)
    returns (i: nat)
    requires n <= |accounts| && Offered(cost, accounts, n, u)
    ensures i < n && IsServed(cost, accounts, i) && accounts[i].username == u
  {
    hide Servable;
    i :| 0 <= i < n && Servable(cost, accounts[i]) && accounts[i].username == u;
    if Taken(cost, accounts, i) {
      i := FirstOffer(cost, accounts, i, u);
    }
  }

  // ---------- Quota keys ----------

  datatype Dimension = Messages | Recipients

  function DimensionName(d: Dimension): string {
    match d case Messages => "messages" case Recipients => "recipients"
  }

  /** `mailout:gateway:account:dimension:window`. */
  function QuotaKey(gateway: string, account: string, d: Dimension, window: nat): string {
    "mailout:" + gateway + ":" + account + ":" + DimensionName(d) + ":" + Decimal(window)
  }

  // The last field can be read back: it holds no colon.
  lemma LastColon(a: string, x: string)
    requires ':' !in x
    ensures LastIndexOf(a + ":" + x, ':') == |a|
  {
    hide LastIndexOf;
    assert (a + ":" + x)[|a|] == ':';
  }

  lemma SplitLast(a: string, x: string, b: string, y: string)
    requires ':' !in x && ':' !in y && a + ":" + x == b + ":" + y
    ensures a == b && x == y
  {
    hide LastIndexOf;
    var s := a + ":" + x;
    LastColon(a, x);
    LastColon(b, y);
    assert a == s[..|a|] && b == s[..|b|];
    assert x == s[|a| + 1..] && y == s[|b| + 1..];
  }

  /** Keys are told apart by their last three fields, so no two counters collide
      even when a hostname contains colons. */
  lemma QuotaKeyInjective(g: string, a: string, d: Dimension, w: nat, g': string, a': string, d': Dimension, w': nat)
    requires UsernameOk(a) && UsernameOk(a')
    requires QuotaKey(g, a, d, w) == QuotaKey(g', a', d', w')
    ensures g == g' && a == a' && d == d' && w == w'
  {
    var k1, k1' := "mailout:" + g, "mailout:" + g';
    var k2, k2' := k1 + ":" + a, k1' + ":" + a';
    var k3, k3' := k2 + ":" + DimensionName(d), k2' + ":" + DimensionName(d');
    SplitLast(k3, Decimal(w), k3', Decimal(w'));
    DecimalInjective(w, w');
    SplitLast(k2, DimensionName(d), k2', DimensionName(d'));
    SplitLast(k1, a, k1', a');
    assert g == k1[8..] && g' == k1'[8..];
    assert |DimensionName(Messages)| == 8 && |DimensionName(Recipients)| == 10;
  }
}
