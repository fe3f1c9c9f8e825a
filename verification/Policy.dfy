/** Which addresses an account may send from, and which domains it may have
    signed. Models internal/gateway/policy.go and `domainOf` of
    internal/gateway/dkim.go.
 */
module Policy {
  import opened Text

  datatype SenderPolicy = SenderPolicy(addresses: set<string>, domains: set<string>)

  // ---------- Entries ----------

  function Normal(entry: string): string {
    Lower(Trim(entry))
  }

  /** What follows the first at sign; used only where there is one. */
  function Domain(s: string): string {
    s[IndexOf(s, '@') + 1..]
  }

  /** What one entry grants. A malformed entry grants nothing. */
  datatype Rule = Nothing | OneAddress(address: string) | WholeDomain(domain: string)

  function RuleOf(entry: string): Rule {
    var e := Normal(entry);
    var at := IndexOf(e, '@');
    if at <= 0 || at + 1 == |e| then Nothing
    else if e[..at] == "*" then WholeDomain(Domain(e))
    else OneAddress(e)
  }

  /** The policy a list of entries stands for. */
  function Compile(entries: seq<string>): SenderPolicy {
    SenderPolicy(
      set e | e in entries && RuleOf(e).OneAddress? :: RuleOf(e).address,
      set e | e in entries && RuleOf(e).WholeDomain? :: RuleOf(e).domain)
  }

  function AddRule(p: SenderPolicy, r: Rule): SenderPolicy {
    match r
    case Nothing => p
    case OneAddress(a) => p.(addresses := p.addresses + {a})
    case WholeDomain(d) => p.(domains := p.domains + {d})
  }

  lemma CompileAppend(entries: seq<string>, entry: string)
    ensures Compile(entries + [entry]) == AddRule(Compile(entries), RuleOf(entry))
  {
    hide RuleOf;
    var p, q, r := Compile(entries), Compile(entries + [entry]), RuleOf(entry);
    assert forall x :: x in entries + [entry] <==> x in entries || x == entry;
    assert q.addresses == p.addresses + if r.OneAddress? then {r.address} else {};
    assert q.domains == p.domains + if r.WholeDomain? then {r.domain} else {};
  }

  lemma CompileOne(entry: string)
    ensures Compile([entry]) == AddRule(SenderPolicy({}, {}), RuleOf(entry))
  {
    hide RuleOf;
    CompileAppend([], entry);
    assert [] + [entry] == [entry];
  }

  lemma CompileEmpty()
    ensures Compile([]) == SenderPolicy({}, {})
  {
  }

  // One step of the loop below, for each kind of entry.
  lemma CompileNext(entries: seq<string>, i: nat)
    requires i < |entries|
    ensures var p := Compile(entries[..i]);
            Compile(entries[..i + 1]) == match RuleOf(entries[i])
                                         case Nothing => p
                                         case WholeDomain(d) => p.(domains := p.domains + {d})
                                         case OneAddress(a) => p.(addresses := p.addresses + {a})
  {
    hide RuleOf, Compile;
    CompileAppend(entries[..i], entries[i]);
    assert entries[..i + 1] == entries[..i] + [entries[i]];
  }

  method NewSenderPolicy(allowedSenders: seq<string>) returns (p: SenderPolicy)
    ensures p == Compile(allowedSenders)
  {
    hide *;
    p := SenderPolicy({}, {});
    CompileEmpty();
    assert allowedSenders[..0] == [];
    for i := 0 to |allowedSenders|
      invariant p == Compile(allowedSenders[..i])
    {
      CompileNext(allowedSenders, i);
      match RuleOf(allowedSenders[i]) {
        case Nothing =>
        case WholeDomain(d) => p := p.(domains := p.domains + {d});
        case OneAddress(a) => p := p.(addresses := p.addresses + {a});
      }
    }
    assert allowedSenders[..|allowedSenders|] == allowedSenders;
  }

  // ---------- Deciding ----------

  /** What stands between the last `<` and the first `>` after it, if both are
      there; the whole text otherwise. */
  function Inner(s: string): string {
    var start := LastIndexOf(s, '<');
    if start < 0 then s
    else
      var end := IndexOf(s[start..], '>');
      if end > 0 then s[start + 1..start + end] else s
  }

  function BareAddress(address: string): string {
    var addr := Trim(Inner(Trim(address)));
    if '@' in addr then addr else []
  }

  predicate AllowsBare(p: SenderPolicy, addr: string) {
    addr != [] && (addr in p.addresses || ('@' in addr && Domain(addr) in p.domains))
  }

  predicate Allows(p: SenderPolicy, address: string) {
    AllowsBare(p, Lower(BareAddress(address)))
  }

  predicate SignsBare(p: SenderPolicy, d: string) {
    d != [] && (d in p.domains || exists a | a in p.addresses :: '@' in a && Domain(a) == d)
  }

  predicate CanSign(p: SenderPolicy, domain: string) {
    SignsBare(p, Normal(domain))
  }

  function DomainOf(address: string): string {
    var addr := Inner(address);
    if '@' in addr then Normal(Domain(addr)) else []
  }

  /** What `covers` asks of one requested entry. */
  predicate Covered(p: SenderPolicy, entry: string) {
    match RuleOf(entry)
    case Nothing => false
    case WholeDomain(d) => d in p.domains
    case OneAddress(a) => Domain(a) in p.domains || a in p.addresses
  }

  // ---------- A policy is the union of its entries ----------

  lemma AllowsByOne(entries: seq<string>, a: string)
    ensures Allows(Compile(entries), a) <==> exists e | e in entries :: Allows(Compile([e]), a)
  {
    hide RuleOf, BareAddress, Lower, Domain;
    var p := Compile(entries);
    var addr := Lower(BareAddress(a));
    if Allows(p, a) {
      var e :| e in entries && (if addr in p.addresses then RuleOf(e) == OneAddress(addr)
                                else RuleOf(e) == WholeDomain(Domain(addr)));
      CompileOne(e);
    }
    forall e | e in entries && Allows(Compile([e]), a) ensures Allows(p, a) {
      CompileOne(e);
    }
  }

  lemma SignsByOne(entries: seq<string>, d: string)
    ensures CanSign(Compile(entries), d) <==> exists e | e in entries :: CanSign(Compile([e]), d)
  {
    hide RuleOf, Normal, Domain;
    var p, dom := Compile(entries), Normal(d);
    if CanSign(p, d) {
      if dom in p.domains {
        var e :| e in entries && RuleOf(e) == WholeDomain(dom);
        CompileOne(e);
      } else {
        var a :| a in p.addresses && '@' in a && Domain(a) == dom;
        var e :| e in entries && RuleOf(e) == OneAddress(a);
        CompileOne(e);
        assert a in Compile([e]).addresses;
      }
    }
    forall e | e in entries && CanSign(Compile([e]), d) ensures CanSign(p, d) {
      CompileOne(e);
    }
  }

  /** A covered entry gives no sending and no signing right the grant lacks. */
  /** What one entry lets be sent: its own address or, where its local part is a
      star, every address of its domain; compared in lower case, and nothing
      where a part is missing. */
  lemma EntryPermits(entry: string, address: string)
    ensures var e, b := Normal(entry), Lower(BareAddress(address));
            var at := IndexOf(e, '@');
            Allows(Compile([entry]), address) <==>
            && 0 < at && at + 1 < |e| && b != []
            && (if e[..at] == "*" then '@' in b && b[IndexOf(b, '@') + 1..] == e[at + 1..] else b == e)
  {
    CompileOne(entry);
    hide Compile, Normal, BareAddress, IndexOf;
  }

  /** What one entry lets be signed: its domain. */
  lemma EntrySigns(entry: string, domain: string)
    ensures var e := Normal(entry);
            var at := IndexOf(e, '@');
            CanSign(Compile([entry]), domain) <==> 0 < at && at + 1 < |e| && e[at + 1..] == Normal(domain)
  {
    CompileOne(entry);
    hide Compile, Normal, IndexOf;
    var e := Normal(entry);
    assert RuleOf(entry).OneAddress? ==> Compile([entry]).addresses == {e};
  }

  lemma CoveredIsNarrower(p: SenderPolicy, entry: string)
    requires Covered(p, entry)
    ensures forall a :: Allows(Compile([entry]), a) ==> Allows(p, a)
    ensures forall d :: CanSign(Compile([entry]), d) ==> CanSign(p, d)
  {
    AddressesHaveAt(entry);
    hide RuleOf, Normal, Domain, Lower, BareAddress, Compile;
    CompileOne(entry);
  }

  lemma AddressesHaveAt(entry: string)
    ensures RuleOf(entry).OneAddress? ==> '@' in RuleOf(entry).address
  {
  }

  // ---------- Refusal is exact ----------

  /** A `<` that a later `>` closes: text no bare address can contain. */
  predicate Bracketed(s: string) {
    var start := LastIndexOf(s, '<');
    start >= 0 && '>' in s[start..]
  }

  lemma InnerOfPlain(s: string)
    ensures !Bracketed(s) ==> Inner(s) == s
    ensures !Bracketed(Inner(s))
  {
    var start := LastIndexOf(s, '<');
    if Bracketed(s) {
      var end := IndexOf(s[start..], '>');
      var inner := Inner(s);
      assert forall k :: 0 <= k < |inner| ==> inner[k] == s[start + 1 + k];
      assert '<' !in inner;
    }
  }

  // A slice with no `<` after it closes a bracket only if the whole does.
  lemma BracketedSlice(s: string, off: int, t: string)
    requires 0 <= off <= off + |t| <= |s|
    requires forall j :: 0 <= j < |t| ==> t[j] == LowerChar(s[off + j])
    requires forall j :: off + |t| <= j < |s| ==> s[j] != '<'
    ensures Bracketed(t) ==> Bracketed(s)
  {
    if Bracketed(t) {
      var i := LastIndexOf(t, '<');
      var k :| 0 <= k < |t[i..]| && t[i..][k] == '>';
      assert t[i + k] == '>' && s[off + i + k] == '>' && s[off + i] == '<';
      forall j | off + i < j < off + |t| ensures s[j] != '<' {
        assert t[j - off] == LowerChar(s[j]);
      }
      assert LastIndexOf(s, '<') == off + i;
      assert s[off + i..][k] == '>';
    }
  }

  lemma TrimSlice(s: string)
    ensures var off := |TrimRight(s, SPACE)| - |Trim(s)|;
            0 <= off <= off + |Trim(s)| <= |s| && Trim(s) == s[off..off + |Trim(s)|]
            && forall j :: off + |Trim(s)| <= j < |s| ==> s[j] in SPACE
  {
    var r := TrimRight(s, SPACE);
    assert r == s[..|r|];
  }

  lemma BracketedNormal(s: string)
    ensures Bracketed(Normal(s)) ==> Bracketed(s)
  {
    TrimSlice(s);
    hide Trim;
    BracketedSlice(s, |TrimRight(s, SPACE)| - |Trim(s)|, Lower(Trim(s)));
  }

  lemma NormalIsNormal(s: string)
    ensures Trimmed(Normal(s)) && Lower(Normal(s)) == Normal(s)
    ensures Trimmed(s) && Lower(s) == s ==> Normal(s) == s
  {
    TrimIsTrimmed(s);
    hide Trim;
    LowerTrimmed(Trim(s));
    LowerIdempotent(Trim(s));
  }

  predicate Plain(b: string) {
    '@' in b && Trimmed(b) && Lower(b) == b && !Bracketed(b)
  }

  /** The addresses a policy is asked about are the plain ones, and each plain
      one is asked about. */
  lemma BareIsPlain(a: string)
    ensures var b := Lower(BareAddress(a)); b == [] || Plain(b)
  {
    var s := Inner(Trim(a));
    InnerOfPlain(Trim(a));
    BracketedNormal(s);
    NormalIsNormal(s);
    hide Trim, Inner, Bracketed;
    assert '@' in Trim(s) ==> '@' in Normal(s) by {
      if '@' in Trim(s) {
        var i :| 0 <= i < |Trim(s)| && Trim(s)[i] == '@';
        assert Normal(s)[i] == '@';
      }
    }
    assert Lower([]) == [];
  }

  lemma PlainIsBare(b: string)
    requires Plain(b)
    ensures Lower(BareAddress(b)) == b
  {
    InnerOfPlain(b);
    TrimIsTrimmed(b);
  }

  /** A bound on the length of every address the policy lists. */
  ghost function Longest(s: set<string>): (n: nat)
    ensures forall a | a in s :: |a| <= n
  {
    if s == {} then 0
    else
      var a :| a in s;
      var n := Longest(s - {a});
      if n < |a| then |a| else n
  }

  function Repeat(c: char, n: nat): (s: string)
    ensures |s| == n && forall i :: 0 <= i < n ==> s[i] == c
  {
    seq(n, _ => c)
  }

  predicate PlainDomain(d: string) {
    Lower(d) == d && d != [] && d[|d| - 1] !in SPACE && !Bracketed(d)
  }

  lemma PlainAt(local: string, d: string)
    requires PlainDomain(d) && local != [] && forall i :: 0 <= i < |local| ==> local[i] == 'a'
    ensures Plain(local + "@" + d) && Domain(local + "@" + d) == d
  {
    hide Lower, Bracketed, IndexOf;
    var a := local + "@" + d;
    PartsAreLower(local, d);
    assert a[0] == 'a' && a[|a| - 1] == d[|d| - 1] && a[|local|] == '@';
    IndexOfUnique(a, '@', |local|);
    assert a[|local| + 1..] == d;
    BracketedTail(a, |local| + 1);
  }

  // With no `<` before `off`, only the tail can be bracketed.
  lemma BracketedTail(a: string, off: nat)
    requires off <= |a| && forall i :: 0 <= i < off ==> a[i] != '<'
    ensures Bracketed(a) ==> Bracketed(a[off..])
  {
    if Bracketed(a) {
      var d, i := a[off..], LastIndexOf(a, '<');
      var k :| 0 <= k < |a[i..]| && a[i..][k] == '>';
      assert d[i - off] == '<' && d[i - off + k] == '>';
      assert forall j :: i - off < j < |d| ==> d[j] == a[off + j];
      assert LastIndexOf(d, '<') == i - off;
      assert d[i - off..][k] == '>';
    }
  }

  // An address at `d` that no finite list contains.
  lemma FreshAddress(p: SenderPolicy, d: string) returns (a: string)
    requires PlainDomain(d)
    ensures Plain(a) && Domain(a) == d && a !in p.addresses
  {
    var local := Repeat('a', Longest(p.addresses) + 1);
    PlainAt(local, d);
    a := local + "@" + d;
    assert |a| > Longest(p.addresses);
  }

  lemma RuleShape(entry: string)
    ensures var e := Normal(entry);
            match RuleOf(entry)
            case Nothing => true
            case OneAddress(a) => a == e && '@' in e && Domain(e) != []
            case WholeDomain(d) => d == Domain(e) && '@' in e && d != []
  {
    hide Normal, IndexOf;
    var e := Normal(entry);
    if RuleOf(entry) != Nothing {
      assert e[IndexOf(e, '@')] == '@';
    }
  }

  lemma RuleIsPlain(entry: string)
    requires !Bracketed(Normal(entry))
    ensures match RuleOf(entry)
            case Nothing => true
            case OneAddress(a) => Plain(a) && a == Normal(entry)
            case WholeDomain(d) => PlainDomain(d)
  {
    hide Normal, Bracketed, Lower, Domain, RuleOf, Trimmed;
    RuleShape(entry);
    NormalIsNormal(entry);
    if RuleOf(entry).WholeDomain? {
      DomainIsNormal(Normal(entry));
      PlainHasPlainDomain(Normal(entry));
    }
  }

  /** The entry lets through an address the grant does not. */
  ghost predicate PermitsMore(p: SenderPolicy, entry: string) {
    exists a :: Allows(Compile([entry]), a) && !Allows(p, a)
  }

  /** Nothing is refused without cause: an entry free of closed brackets is
      refused exactly when it is malformed or lets through an address that the
      grant does not. */
  lemma RefusalIsExact(p: SenderPolicy, entry: string)
    requires !Bracketed(Normal(entry))
    ensures !Covered(p, entry) <==> RuleOf(entry) == Nothing || PermitsMore(p, entry)
  {
    CompileOne(entry);
    RuleIsPlain(entry);
    hide RuleOf, Normal, Compile;
    if Covered(p, entry) {
      CoveredIsNarrower(p, entry);
    } else {
      match RuleOf(entry)
      case Nothing =>
      case OneAddress(a) =>
        PlainIsBare(a);
        assert Allows(Compile([entry]), a) && !Allows(p, a);
      case WholeDomain(d) =>
        var a := FreshAddress(p, d);
        PlainIsBare(a);
        assert Allows(Compile([entry]), a) && !Allows(p, a);
    }
  }

  lemma BracketedRule(entry: string)
    requires Bracketed(Normal(entry)) && RuleOf(entry).WholeDomain?
    ensures Bracketed(RuleOf(entry).domain)
  {
    var e := Normal(entry);
    hide Normal, IndexOf, Bracketed;
    assert e[0] == e[..IndexOf(e, '@')][0] == '*';
    BracketedTail(e, IndexOf(e, '@') + 1);
  }

  lemma PlainHasPlainDomain(b: string)
    requires Plain(b)
    ensures !Bracketed(Domain(b))
  {
    var d, off := Domain(b), IndexOf(b, '@') + 1;
    assert forall i :: 0 <= i < |d| ==> d[i] == b[off + i] == Lower(b)[off + i];
    BracketedSlice(b, off, d);
  }

  lemma RuleBracketed(entry: string)
    ensures RuleOf(entry).OneAddress? ==> RuleOf(entry).address == Normal(entry)
  {
  }

  /** A bracketed entry allows no address at all, although `covers` refuses it
      unless it is granted: there refusal says nothing about addresses. */
  lemma BracketedPermitsNothing(entry: string, a: string)
    requires Bracketed(Normal(entry))
    ensures !Allows(Compile([entry]), a)
  {
    hide RuleOf, BareAddress, Compile, Lower, Normal, Bracketed, Domain;
    CompileOne(entry);
    BareIsPlain(a);
    RuleBracketed(entry);
    if RuleOf(entry).WholeDomain? {
      BracketedRule(entry);
    }
    var b := Lower(BareAddress(a));
    if b != [] {
      PlainHasPlainDomain(b);
    }
  }

  /** Exactly the entries for which refusal means what it says, whatever the
      grant: those with no closed bracket, and the malformed ones. */
  lemma RefusalExactIff(entry: string)
    ensures (forall p :: !Covered(p, entry) <==> RuleOf(entry) == Nothing || PermitsMore(p, entry))
            <==> RuleOf(entry) == Nothing || !Bracketed(Normal(entry))
  {
    hide RuleOf, Normal, Compile, Bracketed;
    if !Bracketed(Normal(entry)) {
      forall p ensures !Covered(p, entry) <==> RuleOf(entry) == Nothing || PermitsMore(p, entry) {
        RefusalIsExact(p, entry);
      }
    } else {
      var none := SenderPolicy({}, {});
      forall a ensures !Allows(Compile([entry]), a) { BracketedPermitsNothing(entry, a); }
      assert !PermitsMore(none, entry) && !Covered(none, entry);
    }
  }

  // ---------- Signing rights and sending rights ----------

  lemma TrimRightUnique(s: string, cut: set<char>, r: string)
    requires r <= s && (r != [] ==> r[|r| - 1] !in cut) && forall i :: |r| <= i < |s| ==> s[i] in cut
    ensures TrimRight(s, cut) == r
  {
    hide TrimRight;
    assert r == s[..|r|] && TrimRight(s, cut) == s[..|TrimRight(s, cut)|];
  }

  lemma TrimLeftUnique(s: string, cut: set<char>, k: nat)
    requires k <= |s| && (k < |s| ==> s[k] !in cut) && forall i :: 0 <= i < k ==> s[i] in cut
    ensures TrimLeft(s, cut) == s[k..]
  {
    hide TrimLeft;
  }

  lemma DomainTrimLeft(x: string)
    requires '@' in x
    ensures var t := TrimLeft(x, SPACE); '@' in t && Domain(t) == Domain(x)
  {
    hide TrimLeft, IndexOf;
    var i := IndexOf(x, '@');
    var t := TrimLeft(x, SPACE);
    var off := |x| - |t|;
    assert off <= i;
    assert forall k :: 0 <= k < |t| ==> t[k] == x[off + k];
    IndexOfUnique(t, '@', i - off);
    assert t[i - off + 1..] == x[i + 1..];
  }

  lemma DomainTrimRight(x: string)
    requires '@' in x
    ensures var t := TrimRight(x, SPACE); '@' in t && Domain(t) == TrimRight(Domain(x), SPACE)
  {
    hide TrimRight, IndexOf;
    var i := IndexOf(x, '@');
    var t, d := TrimRight(x, SPACE), Domain(x);
    assert i < |t|;
    assert t[i] == '@' && forall k :: 0 <= k < i ==> t[k] == x[k];
    IndexOfUnique(t, '@', i);
    var r := t[i + 1..];
    assert r <= d && forall k :: |r| <= k < |d| ==> d[k] == x[i + 1 + k];
    TrimRightUnique(d, SPACE, r);
  }

  lemma DomainLower(x: string)
    requires '@' in x
    ensures '@' in Lower(x) && Domain(Lower(x)) == Lower(Domain(x))
  {
    var i := IndexOf(x, '@');
    assert Lower(x)[i] == '@';
    IndexOfUnique(Lower(x), '@', i);
  }

  lemma TrimLeftLower(x: string)
    ensures TrimLeft(Lower(x), SPACE) == Lower(TrimLeft(x, SPACE))
  {
    hide TrimLeft, Lower;
    var t := TrimLeft(x, SPACE);
    var k := |x| - |t|;
    assert forall i :: 0 <= i < |x| ==> (Lower(x)[i] in SPACE <==> x[i] in SPACE);
    if k < |x| {
      assert x[k] == t[0];
    }
    TrimLeftUnique(Lower(x), SPACE, k);
  }

  lemma NormalDomain(x: string)
    requires '@' in x
    ensures '@' in Normal(x) && Normal(Domain(x)) == TrimLeft(Domain(Normal(x)), SPACE)
  {
    var r := TrimRight(x, SPACE);
    DomainTrimRight(x);
    DomainTrimLeft(r);
    DomainLower(Trim(x));
    TrimLeftLower(Domain(r));
  }

  lemma TrimTrimRight(a: string)
    ensures Trim(TrimRight(a, SPACE)) == Trim(a)
  {
    TrimRightUnique(TrimRight(a, SPACE), SPACE, TrimRight(a, SPACE));
  }

  lemma TrimRightPadded(s: string, r: string)
    requires (s != [] ==> s[|s| - 1] !in SPACE) && forall c | c in r :: c in SPACE
    ensures TrimRight(s + r, SPACE) == s
  {
    var x := s + r;
    forall i | |s| <= i < |x| ensures x[i] in SPACE {
      assert x[i] == r[i - |s|] && r[i - |s|] in r;
    }
    TrimRightUnique(x, SPACE, s);
  }

  lemma TrimLeftPadded(l: string, s: string)
    requires (s != [] ==> s[0] !in SPACE) && forall c | c in l :: c in SPACE
    ensures TrimLeft(l + s, SPACE) == s
  {
    var x := l + s;
    forall i | 0 <= i < |l| ensures x[i] in SPACE {
      assert x[i] == l[i] && l[i] in l;
    }
    TrimLeftUnique(x, SPACE, |l|);
    assert x[|l|..] == s;
  }

  /** Space around a text does not count, and nor does its case. */
  lemma NormalIs(l: string, s: string, r: string)
    requires Trimmed(s) && (forall c | c in l :: c in SPACE) && (forall c | c in r :: c in SPACE)
    ensures Normal(l + s + r) == Lower(s)
  {
    hide TrimRight, TrimLeft, Lower;
    if s == [] {
      assert l + s + r == [] + (l + r);
      assert forall c | c in l + r :: c in l || c in r;
      TrimRightPadded([], l + r);
      TrimLeftPadded(s, s);
      assert s + s == s;
    } else {
      assert (l + s)[|l + s| - 1] == s[|s| - 1];
      TrimRightPadded(l + s, r);
      TrimLeftPadded(l, s);
    }
  }

  // Text without brackets after `r` does not move the brackets of `r`.
  lemma BracketsBefore(r: string, u: string, i: nat)
    requires i <= |r| && '<' !in u && '>' !in u
    ensures LastIndexOf(r + u, '<') == LastIndexOf(r, '<')
    ensures IndexOf((r + u)[i..], '>') == IndexOf(r[i..], '>')
  {
    hide LastIndexOf, IndexOf;
    var a := r + u;
    assert forall k :: 0 <= k < |r| ==> a[k] == r[k];
    assert forall k :: |r| <= k < |a| ==> a[k] == u[k - |r|];
    assert forall k :: 0 <= k < |a[i..]| ==> a[i..][k] == a[i + k];
    assert forall k :: 0 <= k < |r[i..]| ==> r[i..][k] == a[i + k];
  }

  lemma InnerBefore(r: string, u: string)
    requires '<' !in u && '>' !in u
    ensures Inner(r) == if Bracketed(r + u) then Inner(r + u) else r
  {
    hide LastIndexOf, IndexOf;
    var a, i := r + u, LastIndexOf(r, '<');
    BracketsBefore(r, u, if i < 0 then 0 else i);
    if i >= 0 {
      var end := IndexOf(r[i..], '>');
      if end > 0 {
        assert a[i + 1..i + end] == r[i + 1..i + end];
      }
    }
  }

  // What is trimmed off is space.
  lemma TrimRightSplits(a: string)
    ensures var r := TrimRight(a, SPACE);
            a == r + a[|r|..] && '<' !in a[|r|..] && '>' !in a[|r|..]
  {
    hide TrimRight;
    var r := TrimRight(a, SPACE);
    var u := a[|r|..];
    forall k | 0 <= k < |u| ensures u[k] in SPACE {
      assert u[k] == a[|r| + k];
    }
  }

  lemma InnerTrimRight(a: string)
    ensures Inner(TrimRight(a, SPACE)) == if Bracketed(a) then Inner(a) else TrimRight(a, SPACE)
  {
    hide TrimRight, Inner, Bracketed;
    var r := TrimRight(a, SPACE);
    TrimRightSplits(a);
    InnerBefore(r, a[|r|..]);
  }

  lemma LastIndexOfAppend(u: string, t: string, c: char)
    requires c !in u
    ensures LastIndexOf(u + t, c) == if LastIndexOf(t, c) < 0 then -1 else |u| + LastIndexOf(t, c)
  {
    hide LastIndexOf;
    var i := LastIndexOf(t, c);
    if i >= 0 {
      assert (u + t)[|u| + i] == c;
    }
  }

  lemma BracketsAfter(u: string, t: string)
    requires '<' !in u
    ensures var i := LastIndexOf(t, '<');
            if i < 0 then LastIndexOf(u + t, '<') < 0
            else LastIndexOf(u + t, '<') == |u| + i && (u + t)[|u| + i..] == t[i..]
  {
    hide LastIndexOf;
    LastIndexOfAppend(u, t, '<');
  }

  lemma InnerAppend(u: string, t: string)
    requires '<' !in u
    ensures Inner(t) == if Bracketed(u + t) then Inner(u + t) else t
  {
    hide LastIndexOf, IndexOf;
    BracketsAfter(u, t);
    var a, i := u + t, LastIndexOf(t, '<');
    if i >= 0 {
      var end := IndexOf(t[i..], '>');
      if end > 0 {
        SliceAfter(u, t, i + 1, i + end);
      }
    }
  }

  lemma SliceAfter(u: string, t: string, i: nat, j: nat)
    requires i <= j <= |t|
    ensures (u + t)[|u| + i..|u| + j] == t[i..j]
  {
  }

  lemma InnerTrimLeft(a: string)
    ensures Inner(TrimLeft(a, SPACE)) == if Bracketed(a) then Inner(a) else TrimLeft(a, SPACE)
  {
    hide TrimLeft, Inner, Bracketed;
    var t := TrimLeft(a, SPACE);
    var u := a[..|a| - |t|];
    assert a == u + t;
    InnerAppend(u, t);
  }

  lemma InnerTrim(a: string)
    ensures Trim(Inner(Trim(a))) == Trim(Inner(a))
  {
    var r := TrimRight(a, SPACE);
    InnerTrimRight(a);
    InnerTrimLeft(r);
    InnerOfPlain(a);
    InnerOfPlain(r);
    TrimTrimRight(a);
    hide Inner, Bracketed, TrimRight, TrimLeft;
    if Bracketed(r) {
      assert Inner(Trim(a)) == Inner(r);
      assert Inner(r) == Inner(a) || (Inner(r) == r && !Bracketed(a));
    } else {
      assert Inner(Trim(a)) == Trim(a);
      assert Inner(r) == r;
      TrimIsTrimmed(a);
      TrimIsTrimmed(Trim(a));
    }
  }

  /** Signing looks at the domain that sending looks at, up to leading white
      space. */
  lemma DomainOfBare(a: string)
    ensures var b := Lower(BareAddress(a));
            if b == [] then '@' !in Inner(a) else DomainOf(a) == TrimLeft(Domain(b), SPACE)
  {
    InnerTrim(a);
    var x := Inner(a);
    hide Trim, Inner;
    if '@' in x {
      NormalDomain(x);
      assert '@' in Trim(x) by {
        var i :| 0 <= i < |Normal(x)| && Normal(x)[i] == '@';
        assert Trim(x)[i] == '@';
      }
    } else {
      TrimSlice(x);
      assert '@' !in Trim(x);
    }
  }

  lemma OneBracket(a: string, tail: string)
    requires '<' !in a && '>' !in a && '<' !in tail
    ensures var rest := "<" + a + ">" + tail;
            LastIndexOf(rest, '<') == 0 && IndexOf(rest, '>') == |a| + 1 && rest[1..|a| + 1] == a
  {
    hide LastIndexOf, IndexOf;
    var rest := "<" + a + ">" + tail;
    assert forall k :: 0 <= k < |a| ==> rest[k + 1] == a[k];
    assert forall k :: 0 <= k < |tail| ==> rest[k + |a| + 2] == tail[k];
    assert forall k :: 1 <= k < |rest| ==> rest[k] != '<' by {
      assert forall k :: 1 <= k < |rest| ==>
               rest[k] == if k <= |a| then a[k - 1] else if k == |a| + 1 then '>' else tail[k - |a| - 2];
    }
    assert forall k :: 0 < k <= |a| ==> rest[k] == a[k - 1];
    IndexOfUnique(rest, '>', |a| + 1);
  }

  lemma LastIndexOfTail(u: string, t: string, c: char)
    requires c in t
    ensures LastIndexOf(u + t, c) == |u| + LastIndexOf(t, c)
  {
    hide LastIndexOf;
    var s, i := u + t, LastIndexOf(t, c);
    assert s[|u| + i] == c;
    assert forall k :: |u| + i < k < |s| ==> s[k] == t[k - |u|];
  }

  lemma InnerOfBrackets(display: string, a: string, tail: string)
    requires '<' !in a && '>' !in a && '<' !in tail
    ensures Inner(display + "<" + a + ">" + tail) == a
  {
    hide LastIndexOf, IndexOf;
    var rest := "<" + a + ">" + tail;
    var s := display + rest;
    assert display + "<" + a + ">" + tail == s;
    OneBracket(a, tail);
    assert rest[0] == '<';
    LastIndexOfTail(display, rest, '<');
    assert s[|display|..] == rest;
    assert s[|display| + 1..|display| + 1 + |a|] == rest[1..|a| + 1];
  }

  /** A display name and angle brackets change neither what may be sent nor what
      may be signed, whatever the name contains. */
  lemma DisplayNameIsIgnored(p: SenderPolicy, display: string, a: string, tail: string)
    requires '<' !in a && '>' !in a && '<' !in tail
    ensures var full := display + "<" + a + ">" + tail;
            (Allows(p, full) <==> Allows(p, a)) && DomainOf(full) == DomainOf(a)
  {
    hide Inner, Trim, Lower, Domain, Bracketed;
    var full := display + "<" + a + ">" + tail;
    InnerOfBrackets(display, a, tail);
    InnerOfUnbracketed(a);
    InnerTrim(full);
    InnerTrim(a);
  }

  lemma InnerOfUnbracketed(a: string)
    requires '<' !in a
    ensures Inner(a) == a
  {
  }

  // What compiling makes true of every policy.
  predicate Compiled(p: SenderPolicy) {
    && (forall a | a in p.addresses :: '@' in a && Trimmed(a) && Lower(a) == a && Domain(a) != [])
    && (forall d | d in p.domains :: d != [] && Lower(d) == d && d[|d| - 1] !in SPACE)
  }

  function Signable(p: SenderPolicy): set<string> {
    p.domains + set a | a in p.addresses :: Domain(a)
  }

  /** The domains of the entries that allow some address. */
  function Reachable(p: SenderPolicy): set<string> {
    (set d | d in p.domains && !Bracketed(d)) + set a | a in p.addresses && !Bracketed(a) :: Domain(a)
  }

  ghost predicate Sendable(p: SenderPolicy, d: string) {
    exists a :: Allows(p, a) && DomainOf(a) == d
  }

  lemma SendableDomains(p: SenderPolicy, d: string)
    requires Compiled(p)
    ensures Sendable(p, d) <==> exists x | x in Reachable(p) :: TrimLeft(x, SPACE) == d
  {
    hide BareAddress, Bracketed, DomainOf, TrimLeft;
    if Sendable(p, d) {
      var a :| Allows(p, a) && DomainOf(a) == d;
      var b := Lower(BareAddress(a));
      BareIsPlain(a);
      DomainOfBare(a);
      PlainHasPlainDomain(b);
      assert Domain(b) in Reachable(p);
    }
    if x :| x in Reachable(p) && TrimLeft(x, SPACE) == d {
      var b: string;
      if x in p.domains && !Bracketed(x) {
        PlainAt("a", x);
        b := "a" + "@" + x;
      } else {
        b :| b in p.addresses && !Bracketed(b) && Domain(b) == x;
      }
      PlainIsBare(b);
      DomainOfBare(b);
      assert Allows(p, b) && DomainOf(b) == d;
    }
  }

  predicate Aligned(p: SenderPolicy) {
    && (forall x | x in Reachable(p) :: TrimLeft(x, SPACE) in Signable(p))
    && (forall x | x in Signable(p) && Trimmed(x) :: exists y | y in Reachable(p) :: TrimLeft(y, SPACE) == x)
  }

  lemma DomainIsNormal(a: string)
    requires '@' in a && Trimmed(a) && Lower(a) == a && Domain(a) != []
    ensures var x := Domain(a); Lower(x) == x && x[|x| - 1] !in SPACE
  {
    hide IndexOf, Lower;
    var x, off := Domain(a), IndexOf(a, '@') + 1;
    assert Lower(x) == x by {
      forall i | 0 <= i < |x| ensures Lower(x)[i] == x[i] {
        assert x[i] == a[off + i] == Lower(a)[off + i];
      }
    }
    assert x[|x| - 1] == a[|a| - 1];
  }

  lemma TrimLeftLast(x: string)
    requires x != [] && x[|x| - 1] !in SPACE
    ensures var t := TrimLeft(x, SPACE); t != [] && Trimmed(t)
  {
    hide TrimLeft;
    var t := TrimLeft(x, SPACE);
    assert t != [];
    assert t[|t| - 1] == x[|x| - 1];
  }

  lemma TrimLeftIsNormal(x: string)
    requires x != [] && Lower(x) == x && x[|x| - 1] !in SPACE
    ensures Trimmed(x) <==> Normal(x) == x
    ensures var t := TrimLeft(x, SPACE); t != [] && Normal(t) == t
  {
    hide TrimLeft, Normal, Lower, Trimmed;
    NormalIsNormal(x);
    TrimLeftLower(x);
    TrimLeftLast(x);
    NormalIsNormal(TrimLeft(x, SPACE));
  }

  lemma SignableIsNormal(p: SenderPolicy, x: string)
    requires Compiled(p) && x in Signable(p)
    ensures x != [] && (Trimmed(x) <==> Normal(x) == x)
    ensures var t := TrimLeft(x, SPACE); t != [] && Normal(t) == t
  {
    hide Domain, Lower, Normal, TrimLeft;
    if x !in p.domains {
      var a :| a in p.addresses && Domain(a) == x;
      DomainIsNormal(a);
    }
    TrimLeftIsNormal(x);
  }

  /** Signing rights are sending rights exactly when the policy's domains line
      up: no domain may start with white space or sit in closed brackets unless
      another entry grants the same domain plainly. */
  lemma SigningIsSending(p: SenderPolicy)
    requires Compiled(p)
    ensures (forall d | d != [] && Normal(d) == d :: CanSign(p, d) <==> Sendable(p, d)) <==> Aligned(p)
  {
    hide Normal, TrimLeft, Sendable, Bracketed, Domain, Lower;
    forall d ensures Sendable(p, d) <==> exists x | x in Reachable(p) :: TrimLeft(x, SPACE) == d {
      SendableDomains(p, d);
    }
    forall d | d != [] && Normal(d) == d ensures CanSign(p, d) <==> d in Signable(p) {
    }
    forall x | x in Signable(p)
      ensures Trimmed(x) <==> Normal(x) == x
      ensures var t := TrimLeft(x, SPACE); x != [] && t != [] && Normal(t) == t
    {
      SignableIsNormal(p, x);
    }
    assert Reachable(p) <= Signable(p);
  }

  lemma RuleIsCompiled(entry: string)
    ensures match RuleOf(entry)
            case Nothing => true
            case OneAddress(a) => '@' in a && Trimmed(a) && Lower(a) == a && Domain(a) != []
            case WholeDomain(d) => d != [] && Lower(d) == d && d[|d| - 1] !in SPACE
  {
    hide Normal, Domain, Lower, RuleOf, Trimmed;
    RuleShape(entry);
    NormalIsNormal(entry);
    if RuleOf(entry) != Nothing {
      DomainIsNormal(Normal(entry));
    }
  }

  lemma CompileIsCompiled(entries: seq<string>)
    ensures Compiled(Compile(entries))
  {
    hide RuleOf, Trimmed, Lower, Domain;
    var p := Compile(entries);
    forall a | a in p.addresses ensures '@' in a && Trimmed(a) && Lower(a) == a && Domain(a) != [] {
      var e :| e in entries && RuleOf(e) == OneAddress(a);
      RuleIsCompiled(e);
    }
    forall d | d in p.domains ensures d != [] && Lower(d) == d && d[|d| - 1] !in SPACE {
      var e :| e in entries && RuleOf(e) == WholeDomain(d);
      RuleIsCompiled(e);
    }
  }

  predicate PlainRule(r: Rule) {
    match r
    case Nothing => true
    case OneAddress(a) => !Bracketed(a) && Trimmed(Domain(a))
    case WholeDomain(d) => !Bracketed(d) && Trimmed(d)
  }

  lemma TrimLeftOfTrimmed(x: string)
    requires Trimmed(x)
    ensures TrimLeft(x, SPACE) == x
  {
  }

  /** Signing and sending agree for every list whose entries have no closed
      bracket and no white space after the at sign. */
  lemma PlainListsAreAligned(entries: seq<string>)
    requires forall e | e in entries :: PlainRule(RuleOf(e))
    ensures Aligned(Compile(entries))
  {
    hide RuleOf, Bracketed, Trimmed, TrimLeft, Domain;
    var p := Compile(entries);
    forall a | a in p.addresses ensures !Bracketed(a) && Trimmed(Domain(a)) {
      var e :| e in entries && RuleOf(e) == OneAddress(a);
    }
    forall d | d in p.domains ensures !Bracketed(d) && Trimmed(d) {
      var e :| e in entries && RuleOf(e) == WholeDomain(d);
    }
    assert Reachable(p) == Signable(p);
    forall x | x in Signable(p) ensures TrimLeft(x, SPACE) == x {
      TrimLeftOfTrimmed(x);
    }
  }

  lemma PartsAreLower(local: string, x: string)
    requires forall i :: 0 <= i < |local| ==> LowerChar(local[i]) == local[i]
    requires Lower(x) == x
    ensures Lower(local + "@" + x) == local + "@" + x
  {
    assert forall i :: 0 <= i < |x| ==> LowerChar(x[i]) == Lower(x)[i];
  }

  lemma PartsAreNormal(local: string, x: string)
    requires local != [] && local[0] !in SPACE
    requires forall i :: 0 <= i < |local| ==> LowerChar(local[i]) == local[i] != '@'
    requires x != [] && Lower(x) == x && x[|x| - 1] !in SPACE
    ensures var e := local + "@" + x;
            Normal(e) == e && IndexOf(e, '@') == |local| && e[..|local|] == local && Domain(e) == x
  {
    hide Lower, Normal, IndexOf;
    var e := local + "@" + x;
    PartsAreLower(local, x);
    NormalIsNormal(e);
    IndexOfUnique(e, '@', |local|);
    assert e[|local| + 1..] == x;
  }

  lemma RuleOfWildcard(x: string)
    requires x != [] && Lower(x) == x && x[|x| - 1] !in SPACE
    ensures RuleOf("*" + "@" + x) == WholeDomain(x)
  {
    hide Normal, IndexOf, Lower, Domain;
    PartsAreNormal("*", x);
  }

  /** An entry with a space after its at sign lets through addresses whose
      domain it may not have signed. */
  lemma SpacedDomainIsNotSigned(d: string)
    requires PlainDomain(d) && Trimmed(d)
    ensures var p := Compile(["*" + "@" + (" " + d)]);
            !CanSign(p, d) && exists a :: Allows(p, a) && DomainOf(a) == d
  {
    hide *;
    var x := " " + d;
    SpacedIsPlain(d);
    WildcardIsOneDomain(x);
    var a := SpacedAddress(d);
    SpacedUnsigned(d);
  }

  lemma WildcardIsOneDomain(x: string)
    requires PlainDomain(x)
    ensures Compile(["*" + "@" + x]) == SenderPolicy({}, {x})
  {
    hide Lower, Bracketed, RuleOf, Compile;
    RuleOfWildcard(x);
    CompileOne("*" + "@" + x);
  }

  lemma SpacedUnsigned(d: string)
    requires PlainDomain(d) && Trimmed(d)
    ensures !CanSign(SenderPolicy({}, {" " + d}), d)
  {
    hide Lower, Normal, Bracketed;
    NormalIsNormal(d);
    assert |" " + d| != |d|;
  }

  lemma SpacedAddress(d: string) returns (a: string)
    requires PlainDomain(" " + d) && Trimmed(d)
    ensures Allows(SenderPolicy({}, {" " + d}), a) && DomainOf(a) == d
  {
    hide Lower, Bracketed, Domain, BareAddress, DomainOf, TrimLeft;
    var x := " " + d;
    PlainAt("a", x);
    a := "a" + "@" + x;
    PlainIsBare(a);
    DomainOfBare(a);
    TrimLeftUnique(x, SPACE, 1);
    assert x[1..] == d;
  }

  lemma SpacedIsPlain(d: string)
    requires PlainDomain(d)
    ensures PlainDomain(" " + d)
  {
    var x := " " + d;
    assert x[1..] == d;
    BracketedTail(x, 1);
    hide Bracketed;
    assert forall i :: 0 <= i < |d| ==> LowerChar(d[i]) == Lower(d)[i];
    assert forall i :: 1 <= i < |x| ==> x[i] == d[i - 1];
  }
}
