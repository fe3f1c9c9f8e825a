/** What the operator decides before the relay is configured: which accounts a
    gateway serves, with which senders, and who owns a username. Models
    internal/controller/access.go, `collectAccounts`, `usernameConflict` and the
    username rule of the admission webhook.
 */
module Access {
  import opened Text
  import opened Policy
  import opened Grants
  import opened Accounts

  type Labels = map<string, string>

  datatype Requirement =
    | In(key: string, values: set<string>)
    | NotIn(key: string, values: set<string>)
    | Exists(key: string)
    | DoesNotExist(key: string)

  /** A label selector; `Invalid` is one the API library cannot convert. */
  datatype Selector = Invalid | Selector(requirements: seq<Requirement>)

  predicate Meets(r: Requirement, labels: Labels) {
    match r
    case In(k, vs) => k in labels && labels[k] in vs
    case NotIn(k, vs) => k !in labels || labels[k] !in vs
    case Exists(k) => k in labels
    case DoesNotExist(k) => k !in labels
  }

  /** The four kinds of requirement, in terms of the one that names values. */
  lemma RequirementsAgree(key: string, values: set<string>, labels: Labels)
    ensures Meets(In(key, values), labels) <==> exists v | v in values :: key in labels && labels[key] == v
    ensures Meets(NotIn(key, values), labels) <==> !Meets(In(key, values), labels)
    ensures Meets(Exists(key), labels) <==> exists v :: Meets(In(key, {v}), labels)
    ensures Meets(DoesNotExist(key), labels) <==> !Meets(Exists(key), labels)
  {
    if key in labels {
      assert Meets(In(key, {labels[key]}), labels);
    }
  }

  predicate Matches(s: Selector, labels: Labels) {
    s.Selector? && forall r | r in s.requirements :: Meets(r, labels)
  }

  datatype NamespacesFrom = All | Same | BySelector | Unknown
  datatype Grant = Grant(selector: Option<Selector>, senders: seq<string>)

  datatype Gateway = Gateway(
    namespace: string,
    name: string,
    from: NamespacesFrom,
    fromSelector: Option<Selector>,
    grants: seq<Grant>)

  datatype MailoutAccount = MailoutAccount(
    namespace: string,
    name: string,
    uid: string,
    created: nat,
    gatewayNamespace: string,
    gatewayName: string,
    username: string,
    secretName: string,
    disabled: bool,
    allowedSenders: seq<string>,
    enforceHeaderFrom: Option<bool>)

  datatype SecretRead = Missing | Failed | Hash(hash: string)

  /** What reading the API server answers: a namespace that cannot be read is
      absent, a Secret that was never written is `Missing`. */
  datatype Cluster = Cluster(namespaces: map<string, Labels>, secrets: map<(string, string), SecretRead>)

  datatype Result<T> = Ok(value: T) | Err

  // ---------- Names ----------

  function GatewayNamespaceFor(a: MailoutAccount, operatorNamespace: string): string {
    if a.gatewayNamespace != [] then a.gatewayNamespace else operatorNamespace
  }

  function UsernameFor(a: MailoutAccount): string {
    if a.username != [] then a.username else a.namespace + "." + a.name
  }

  predicate Targets(a: MailoutAccount, gw: Gateway, operatorNamespace: string) {
    GatewayNamespaceFor(a, operatorNamespace) == gw.namespace && a.gatewayName == gw.name
  }

  /** The admission rule on explicit usernames. */
  predicate PrefixRule(a: MailoutAccount) {
    a.username != [] ==> a.namespace + "." <= a.username
  }

  /** Admitted accounts of different namespaces never share a username. */
  lemma UsernamesAreApart(a: MailoutAccount, b: MailoutAccount)
    requires PrefixRule(a) && PrefixRule(b)
    requires '.' !in a.namespace && '.' !in b.namespace
    requires UsernameFor(a) == UsernameFor(b)
    ensures a.namespace == b.namespace
  {
    var u := UsernameFor(a);
    assert a.namespace + "." <= u && b.namespace + "." <= u;
    assert u[|a.namespace|] == '.' && u[|b.namespace|] == '.';
    assert forall i :: 0 <= i < |a.namespace| ==> u[i] == a.namespace[i];
    assert forall i :: 0 <= i < |b.namespace| ==> u[i] == b.namespace[i];
    IndexOfUnique(u, '.', |a.namespace|);
    IndexOfUnique(u, '.', |b.namespace|);
  }

  // ---------- Username ownership ----------

  /** Creation time decides, the UID breaks ties. */
  predicate Older(a: MailoutAccount, b: MailoutAccount) {
    a.created < b.created || (a.created == b.created && Less(a.uid, b.uid))
  }

  predicate Rival(o: MailoutAccount, a: MailoutAccount, gw: Gateway, ns: string, username: string) {
    !(o.namespace == a.namespace && o.name == a.name) && Targets(o, gw, ns) && UsernameFor(o) == username
  }

  predicate Conflicted(list: seq<MailoutAccount>, a: MailoutAccount, gw: Gateway, ns: string, username: string) {
    exists o | o in list :: Rival(o, a, gw, ns, username) && Older(o, a)
  }

  method UsernameConflict(list: seq<MailoutAccount>, a: MailoutAccount, gw: Gateway, ns: string, username: string)
    returns (owner: Option<string>)
    ensures owner.Some? <==> Conflicted(list, a, gw, ns, username)
    ensures owner.Some? ==> exists o | o in list ::
              Rival(o, a, gw, ns, username) && Older(o, a) && owner.value == o.namespace + "/" + o.name
  {
    for i := 0 to |list|
      invariant forall k :: 0 <= k < i ==> !(Rival(list[k], a, gw, ns, username) && Older(list[k], a))
    {
      var o := list[i];
      if o.namespace == a.namespace && o.name == a.name {
        continue;
      }
      if !Targets(o, gw, ns) || UsernameFor(o) != username {
        continue;
      }
      assert o in list && Rival(o, a, gw, ns, username);
      if o.created < a.created {
        assert Older(o, a);
        return Some(o.namespace + "/" + o.name);
      }
      if a.created < o.created {
        continue;
      }
      if Less(o.uid, a.uid) {
        assert Older(o, a);
        return Some(o.namespace + "/" + o.name);
      }
    }
    return None;
  }

  /** An account that claims `username` on the gateway. */
  predicate Claims(a: MailoutAccount, gw: Gateway, ns: string, username: string) {
    Targets(a, gw, ns) && UsernameFor(a) == username
  }

  lemma {:induction false} OldestClaim(list: seq<MailoutAccount>, gw: Gateway, ns: string, username: string,
                                       a: MailoutAccount)
    returns (w: MailoutAccount)
    requires a in list && Claims(a, gw, ns, username)
    ensures w in list && Claims(w, gw, ns, username)
    ensures forall o | o in list && Claims(o, gw, ns, username) :: !Older(o, w)
  {
    hide Claims, Less;
    w := a;
    LessTotal(w.uid, w.uid);
    for i := 0 to |list|
      invariant w in list && Claims(w, gw, ns, username)
      invariant forall k | 0 <= k < i && Claims(list[k], gw, ns, username) :: !Older(list[k], w)
    {
      var o := list[i];
      if Claims(o, gw, ns, username) && Older(o, w) {
        forall k | 0 <= k < i && Claims(list[k], gw, ns, username) ensures !Older(list[k], o) {
          if Older(list[k], o) {
            OlderTransitive(list[k], o, w);
          }
        }
        LessTotal(o.uid, o.uid);
        w := o;
      }
    }
  }

  lemma OlderTransitive(a: MailoutAccount, b: MailoutAccount, c: MailoutAccount)
    requires Older(a, b) && Older(b, c)
    ensures Older(a, c)
  {
    if a.created == b.created == c.created {
      LessTransitive(a.uid, b.uid, c.uid);
    }
  }

  /** Of the accounts claiming one username, exactly one is not in conflict: the
      oldest, and of those created together the one with the first identifier,
      whatever the order of the list. */
  lemma ExactlyOneOwner(list: seq<MailoutAccount>, gw: Gateway, ns: string, username: string, a: MailoutAccount)
    requires a in list && Claims(a, gw, ns, username)
    requires forall o, p | o in list && p in list ::
               (o.namespace == p.namespace && o.name == p.name) || o.uid == p.uid ==> o == p
    ensures exists w | w in list && Claims(w, gw, ns, username) ::
              !Conflicted(list, w, gw, ns, username)
              && forall o | o in list && Claims(o, gw, ns, username) && o != w ::
                   Conflicted(list, o, gw, ns, username)
                   && (w.created < o.created || (w.created == o.created && Less(w.uid, o.uid)))
  {
    var w := OldestClaim(list, gw, ns, username, a);
    forall o | o in list && Claims(o, gw, ns, username) && o != w
      ensures Conflicted(list, o, gw, ns, username)
              && (w.created < o.created || (w.created == o.created && Less(w.uid, o.uid)))
    {
      LessTotal(o.uid, w.uid);
      hide Less;
      assert Rival(w, o, gw, ns, username) && Older(w, o);
    }
  }

  // ---------- Grants ----------

  predicate Applies(g: Grant, labels: Labels) {
    g.selector.None? || Matches(g.selector.value, labels)
  }

  /** Resolving the grants cannot be completed for this namespace. */
  predicate Unresolvable(grants: seq<Grant>, cluster: Cluster, namespace: string) {
    exists g | g in grants ::
      g.selector.Some? && (g.selector.value.Invalid? || namespace !in cluster.namespaces)
  }

  function LabelsOf(cluster: Cluster, namespace: string): Labels {
    if namespace in cluster.namespaces then cluster.namespaces[namespace] else map[]
  }

  function Granted(grants: seq<Grant>, labels: Labels): seq<string> {
    if grants == [] then []
    else
      var n := |grants| - 1;
      Granted(grants[..n], labels) + if Applies(grants[n], labels) then grants[n].senders else []
  }

  lemma {:induction false} GrantedMembers(grants: seq<Grant>, labels: Labels, e: string)
    ensures e in Granted(grants, labels) <==> exists g | g in grants :: Applies(g, labels) && e in g.senders
  {
    hide Applies;
    if grants != [] {
      var n := |grants| - 1;
      GrantedMembers(grants[..n], labels, e);
      assert grants == grants[..n] + [grants[n]];
      assert grants[n] in grants;
    }
  }

  method GrantedSenders(grants: seq<Grant>, cluster: Cluster, namespace: string)
    returns (r: Result<seq<string>>)
    ensures r.Err? <==> Unresolvable(grants, cluster, namespace)
    ensures r.Ok? ==> r.value == Granted(grants, LabelsOf(cluster, namespace))
  {
    hide Matches;
    var granted: seq<string> := [];
    var nsLabels: Option<Labels> := None;
    for i := 0 to |grants|
      invariant granted == Granted(grants[..i], LabelsOf(cluster, namespace))
      invariant nsLabels.Some? ==> namespace in cluster.namespaces && nsLabels.value == cluster.namespaces[namespace]
      invariant forall k :: 0 <= k < i && grants[k].selector.Some? ==>
                  grants[k].selector.value.Selector? && namespace in cluster.namespaces
    {
      var grant := grants[i];
      assert grants[..i + 1][..i] == grants[..i];
      if grant.selector.Some? {
        if grant.selector.value.Invalid? {
          return Err;
        }
        if nsLabels.None? {
          if namespace !in cluster.namespaces {
            return Err;
          }
          nsLabels := Some(cluster.namespaces[namespace]);
        }
        if !Matches(grant.selector.value, nsLabels.value) {
          continue;
        }
      }
      granted := granted + grant.senders;
    }
    assert grants[..|grants|] == grants;
    return Ok(granted);
  }

  // ---------- Collecting accounts ----------

  /** Whether the gateway accepts accounts from a namespace. */
  function NamespaceAllowed(gw: Gateway, cluster: Cluster, namespace: string): Result<bool> {
    match gw.from
    case All => Ok(true)
    case Same => Ok(namespace == gw.namespace)
    case BySelector =>
      if gw.fromSelector.None? then Ok(false)
      else if gw.fromSelector.value.Invalid? || namespace !in cluster.namespaces then Err
      else Ok(Matches(gw.fromSelector.value, cluster.namespaces[namespace]))
    case Unknown => Err
  }

  function ReadSecret(cluster: Cluster, a: MailoutAccount): SecretRead {
    var key := (a.namespace, a.secretName);
    if key in cluster.secrets then cluster.secrets[key] else Missing
  }

  /** The account is one this gateway serves. */
  predicate Eligible(a: MailoutAccount, gw: Gateway, cluster: Cluster, ns: string) {
    Targets(a, gw, ns) && NamespaceAllowed(gw, cluster, a.namespace) == Ok(true)
    && ReadSecret(cluster, a).Hash? && ReadSecret(cluster, a).hash != []
  }

  /** `r` is what `a` is served as. */
  predicate ServedAs(a: MailoutAccount, r: Account, gw: Gateway, cluster: Cluster, ns: string) {
    && Eligible(a, gw, cluster, ns)
    && r.username == UsernameFor(a) && r.disabled == a.disabled
    && r.passwordHash == ReadSecret(cluster, a).hash
    && r.skipHeaderFromCheck == (a.enforceHeaderFrom == Some(false))
    && IsSubset(Granted(gw.grants, LabelsOf(cluster, a.namespace)), a.allowedSenders, r.allowedSenders)
  }

  /** The accounts of a list a gateway serves, in list order. */
  ghost predicate Collects(list: seq<MailoutAccount>, accounts: seq<Account>, gw: Gateway, cluster: Cluster,
                           ns: string)
  {
    if list == [] then accounts == []
    else
      var n := |list| - 1;
      if Eligible(list[n], gw, cluster, ns)
      then accounts != [] && ServedAs(list[n], accounts[|accounts| - 1], gw, cluster, ns)
           && Collects(list[..n], accounts[..|accounts| - 1], gw, cluster, ns)
      else Collects(list[..n], accounts, gw, cluster, ns)
  }

  /** Some account makes the whole collection fail. */
  predicate Blocks(a: MailoutAccount, gw: Gateway, cluster: Cluster, ns: string) {
    Targets(a, gw, ns)
    && (NamespaceAllowed(gw, cluster, a.namespace).Err?
        || (NamespaceAllowed(gw, cluster, a.namespace) == Ok(true)
            && (ReadSecret(cluster, a).Failed?
                || (Eligible(a, gw, cluster, ns) && Unresolvable(gw.grants, cluster, a.namespace)))))
  }

  /** The owner's rule for namespaces: every one, the gateway's own, or those a
      valid selector picks by their labels. */
  predicate Admits(gw: Gateway, cluster: Cluster, namespace: string) {
    && gw.from != Unknown
    && (gw.from == Same ==> namespace == gw.namespace)
    && (gw.from == BySelector ==>
          && gw.fromSelector.Some? && gw.fromSelector.value.Selector? && namespace in cluster.namespaces
          && forall r | r in gw.fromSelector.value.requirements :: Meets(r, cluster.namespaces[namespace]))
  }

  /** What it takes to be served: the account refers to this gateway, the owner
      admits its namespace, and its Secret holds a hash. */
  predicate Qualifies(a: MailoutAccount, gw: Gateway, cluster: Cluster, ns: string) {
    && a.gatewayName == gw.name && gw.namespace == (if a.gatewayNamespace == [] then ns else a.gatewayNamespace)
    && Admits(gw, cluster, a.namespace)
    && (a.namespace, a.secretName) in cluster.secrets
    && cluster.secrets[(a.namespace, a.secretName)].Hash? && cluster.secrets[(a.namespace, a.secretName)].hash != []
  }

  /** `r` carries over what the account and its Secret say, and senders its
      namespace was granted. */
  predicate CarriedOver(a: MailoutAccount, r: Account, gw: Gateway, cluster: Cluster) {
    && r.username == (if a.username == [] then a.namespace + "." + a.name else a.username)
    && (a.namespace, a.secretName) in cluster.secrets
    && cluster.secrets[(a.namespace, a.secretName)] == Hash(r.passwordHash)
    && r.disabled == a.disabled && (r.skipHeaderFromCheck <==> a.enforceHeaderFrom == Some(false))
    && IsSubset(Granted(gw.grants, LabelsOf(cluster, a.namespace)), a.allowedSenders, r.allowedSenders)
  }

  lemma NamespaceAllowedIff(gw: Gateway, cluster: Cluster, namespace: string)
    ensures NamespaceAllowed(gw, cluster, namespace) == Ok(true) <==> Admits(gw, cluster, namespace)
    ensures NamespaceAllowed(gw, cluster, namespace).Err? <==>
              gw.from == Unknown
              || (gw.from == BySelector && gw.fromSelector.Some?
                  && (gw.fromSelector.value.Invalid? || namespace !in cluster.namespaces))
  {
    hide Meets;
  }

  lemma ServedAsIff(a: MailoutAccount, r: Account, gw: Gateway, cluster: Cluster, ns: string)
    ensures Eligible(a, gw, cluster, ns) <==> Qualifies(a, gw, cluster, ns)
    ensures ServedAs(a, r, gw, cluster, ns) <==> Qualifies(a, gw, cluster, ns) && CarriedOver(a, r, gw, cluster)
  {
    hide Admits, NamespaceAllowed, IsSubset;
    NamespaceAllowedIff(gw, cluster, a.namespace);
  }

  /** The collection fails exactly on an account of this gateway for which the
      owner's rule cannot be applied, whose Secret cannot be read though its
      namespace is admitted, or that qualifies while a grant's selector cannot
      be applied. */
  lemma BlocksIff(a: MailoutAccount, gw: Gateway, cluster: Cluster, ns: string)
    ensures Blocks(a, gw, cluster, ns) <==>
            && a.gatewayName == gw.name && gw.namespace == (if a.gatewayNamespace == [] then ns else a.gatewayNamespace)
            && (|| gw.from == Unknown
                || (gw.from == BySelector && gw.fromSelector.Some?
                    && (gw.fromSelector.value.Invalid? || a.namespace !in cluster.namespaces))
                || (Admits(gw, cluster, a.namespace) && (a.namespace, a.secretName) in cluster.secrets
                    && cluster.secrets[(a.namespace, a.secretName)].Failed?)
                || (Qualifies(a, gw, cluster, ns)
                    && exists g | g in gw.grants ::
                         g.selector.Some? && (g.selector.value.Invalid? || a.namespace !in cluster.namespaces)))
  {
    hide Admits, NamespaceAllowed, IsSubset;
    NamespaceAllowedIff(gw, cluster, a.namespace);
  }

  // The body of the collecting loop: nothing when the account is skipped.
  method CollectOne(account: MailoutAccount, gw: Gateway, cluster: Cluster, ns: string)
    returns (r: Result<Option<Account>>)
    ensures r.Err? <==> Blocks(account, gw, cluster, ns)
    ensures r.Ok? ==> (r.value.Some? <==> Eligible(account, gw, cluster, ns))
    ensures r.Ok? && r.value.Some? ==> ServedAs(account, r.value.value, gw, cluster, ns)
  {
    hide Matches, IsSubset, Unresolvable;
    if !Targets(account, gw, ns) {
      return Ok(None);
    }
    var allowed := NamespaceAllowed(gw, cluster, account.namespace);
    if allowed.Err? {
      return Err;
    }
    if !allowed.value {
      return Ok(None);
    }
    var secret := ReadSecret(cluster, account);
    if secret.Failed? {
      return Err;
    }
    if secret.Missing? || secret.hash == [] {
      return Ok(None);
    }
    var granted := GrantedSenders(gw.grants, cluster, account.namespace);
    if granted.Err? {
      return Err;
    }
    var senders, refused := GrantedSubset(granted.value, account.allowedSenders);
    r := Ok(Some(Account(UsernameFor(account), secret.hash, account.disabled, senders,
                         account.enforceHeaderFrom == Some(false))));
  }

  method CollectAccounts(list: seq<MailoutAccount>, gw: Gateway, cluster: Cluster, ns: string)
    returns (r: Result<seq<Account>>)
    ensures r.Err? <==> exists a | a in list :: Blocks(a, gw, cluster, ns)
    ensures r.Ok? ==> Collects(list, r.value, gw, cluster, ns)
  {
    hide Blocks, ServedAs, Eligible;
    var accounts: seq<Account> := [];
    for i := 0 to |list|
      invariant Collects(list[..i], accounts, gw, cluster, ns)
      invariant forall k :: 0 <= k < i ==> !Blocks(list[k], gw, cluster, ns)
    {
      assert list[i] in list;
      assert list[..i + 1][..i] == list[..i];
      var one := CollectOne(list[i], gw, cluster, ns);
      if one.Err? {
        return Err;
      }
      if one.value.Some? {
        assert (accounts + [one.value.value])[..|accounts|] == accounts;
        accounts := accounts + [one.value.value];
      }
    }
    assert list[..|list|] == list;
    return Ok(accounts);
  }

  lemma {:induction false} CollectedFrom(list: seq<MailoutAccount>, accounts: seq<Account>, gw: Gateway,
                                         cluster: Cluster, ns: string, r: Account)
    returns (a: MailoutAccount)
    requires Collects(list, accounts, gw, cluster, ns) && r in accounts
    ensures a in list && ServedAs(a, r, gw, cluster, ns)
  {
    hide ServedAs, Eligible;
    var n := |list| - 1;
    if Eligible(list[n], gw, cluster, ns) && accounts[|accounts| - 1] == r {
      a := list[n];
    } else {
      var rest := if Eligible(list[n], gw, cluster, ns) then accounts[..|accounts| - 1] else accounts;
      a := CollectedFrom(list[..n], rest, gw, cluster, ns, r);
    }
  }

  /** Every account that qualifies is collected. */
  lemma {:induction false} EveryoneIsCollected(list: seq<MailoutAccount>, accounts: seq<Account>, gw: Gateway,
                                               cluster: Cluster, ns: string, a: MailoutAccount)
    requires Collects(list, accounts, gw, cluster, ns) && a in list && Qualifies(a, gw, cluster, ns)
    ensures exists r | r in accounts :: CarriedOver(a, r, gw, cluster)
  {
    hide ServedAs, Eligible, Qualifies, CarriedOver;
    var n := |list| - 1;
    assert list == list[..n] + [list[n]];
    if list[n] == a {
      var r := if accounts != [] then accounts[|accounts| - 1] else Account([], [], false, [], false);
      ServedAsIff(a, r, gw, cluster, ns);
      assert r in accounts && CarriedOver(a, r, gw, cluster);
    } else {
      var rest := if Eligible(list[n], gw, cluster, ns) then accounts[..|accounts| - 1] else accounts;
      EveryoneIsCollected(list[..n], rest, gw, cluster, ns, a);
      var r :| r in rest && CarriedOver(a, r, gw, cluster);
      assert r in accounts;
    }
  }

  /** The owner's word is final: whatever an account may send from or have
      signed, one entry of a grant that selects its namespace allows it. */
  lemma RightsComeFromGrants(a: MailoutAccount, r: Account, gw: Gateway, cluster: Cluster, ns: string)
    requires ServedAs(a, r, gw, cluster, ns)
    ensures forall x | Allows(Compile(r.allowedSenders), x) ::
              exists g, e | g in gw.grants && e in g.senders ::
                Applies(g, LabelsOf(cluster, a.namespace)) && Allows(Compile([e]), x)
    ensures forall d | CanSign(Compile(r.allowedSenders), d) ::
              exists g, e | g in gw.grants && e in g.senders ::
                Applies(g, LabelsOf(cluster, a.namespace)) && CanSign(Compile([e]), d)
  {
    hide Compile, Allows, CanSign, Applies, Eligible, IsSubset;
    var labels := LabelsOf(cluster, a.namespace);
    var granted := Granted(gw.grants, labels);
    SubsetIsGranted(granted, a.allowedSenders, r.allowedSenders);
    forall x | Allows(Compile(r.allowedSenders), x)
      ensures exists g, e | g in gw.grants && e in g.senders :: Applies(g, labels) && Allows(Compile([e]), x)
    {
      var e :| e in granted && Allows(Compile([e]), x);
      GrantedMembers(gw.grants, labels, e);
    }
    forall d | CanSign(Compile(r.allowedSenders), d)
      ensures exists g, e | g in gw.grants && e in g.senders :: Applies(g, labels) && CanSign(Compile([e]), d)
    {
      var e :| e in granted && CanSign(Compile([e]), d);
      GrantedMembers(gw.grants, labels, e);
    }
  }
}
