/** What an account's request leaves of a grant. Models `covers`, `entries` and
    `GrantedSubset` of internal/gateway/policy.go.
 */
module Grants {
  import opened Text
  import opened Policy

  // ---------- Narrowing a grant ----------

  function Keep(requested: seq<string>, p: SenderPolicy, covered: bool): seq<string> {
    if requested == [] then []
    else
      var n := |requested| - 1;
      Keep(requested[..n], p, covered)
      + if Covered(p, requested[n]) == covered then [requested[n]] else []
  }

  method Covers(p: SenderPolicy, requested: seq<string>) returns (uncovered: seq<string>)
    ensures uncovered == Keep(requested, p, false)
  {
    hide Covered;
    uncovered := [];
    for i := 0 to |requested|
      invariant uncovered == Keep(requested[..i], p, false)
    {
      assert requested[..i + 1][..i] == requested[..i];
      if !Covered(p, requested[i]) {
        uncovered := uncovered + [requested[i]];
      }
    }
    assert requested[..|requested|] == requested;
  }

  lemma {:induction false} KeepMembers(requested: seq<string>, p: SenderPolicy, covered: bool)
    ensures forall e :: e in Keep(requested, p, covered) <==> e in requested && Covered(p, e) == covered
  {
    hide Covered;
    if requested != [] {
      var n := |requested| - 1;
      KeepMembers(requested[..n], p, covered);
      assert requested == requested[..n] + [requested[n]];
    }
  }

  lemma {:induction false} KeepCount(requested: seq<string>, p: SenderPolicy, covered: bool, e: string)
    ensures multiset(Keep(requested, p, covered))[e] == if Covered(p, e) == covered then multiset(requested)[e] else 0
  {
    hide Covered;
    if requested != [] {
      var n := |requested| - 1;
      KeepCount(requested[..n], p, covered, e);
      CountLast(requested, e);
      CountAppend(Keep(requested[..n], p, covered), requested[n], e);
    }
  }

  /** The kept and the dropped entries are the request, with multiplicities. */
  /** Entry by entry, in the order they were asked for. */
  lemma {:induction false} KeepConcat(a: seq<string>, b: seq<string>, p: SenderPolicy, covered: bool)
    ensures Keep(a + b, p, covered) == Keep(a, p, covered) + Keep(b, p, covered)
  {
    hide Covered;
    if b == [] {
      assert a + b == a;
    } else {
      var n := |b| - 1;
      KeepConcat(a, b[..n], p, covered);
      assert (a + b)[..|a + b| - 1] == a + b[..n];
    }
  }

  lemma KeepOne(e: string, p: SenderPolicy, covered: bool)
    ensures Keep([e], p, covered) == if Covered(p, e) == covered then [e] else []
  {
    hide Covered;
    assert [e][..0] == [];
  }

  lemma KeepSplits(requested: seq<string>, p: SenderPolicy)
    ensures multiset(Keep(requested, p, true)) + multiset(Keep(requested, p, false)) == multiset(requested)
  {
    hide Covered, Keep;
    forall e: string
      ensures (multiset(Keep(requested, p, true)) + multiset(Keep(requested, p, false)))[e] == multiset(requested)[e]
    {
      KeepCount(requested, p, true, e);
      KeepCount(requested, p, false, e);
    }
  }

  // ---------- Listing a policy ----------

  predicate Sorted(s: seq<string>) {
    forall i, j :: 0 <= i < j < |s| ==> !Less(s[j], s[i])
  }

  lemma SortedAfter(s: seq<string>, x: string)
    requires Sorted(s) && (s != [] ==> !Less(x, s[|s| - 1]))
    ensures Sorted(s + [x])
  {
    hide Less;
    forall i | 0 <= i < |s| ensures !Less(x, s[i]) {
      LessTotal(x, s[i]);
      LessTotal(s[|s| - 1], s[i]);
      if Less(x, s[i]) && i < |s| - 1 && s[i] != s[|s| - 1] {
        LessTransitive(x, s[i], s[|s| - 1]);
      }
    }
  }

  lemma SortedBelow(r: seq<string>, s: seq<string>, x: string, last: string)
    requires Sorted(r) && multiset(r) == multiset(s) + multiset{x}
    requires !Less(last, x) && forall i | 0 <= i < |s| :: !Less(last, s[i])
    ensures Sorted(r + [last])
    ensures multiset(r + [last]) == multiset(s + [last]) + multiset{x}
  {
    hide Less;
    forall i | 0 <= i < |r| ensures !Less(last, r[i]) {
      assert r[i] in multiset(r);
    }
  }

  function Insert(s: seq<string>, x: string): (r: seq<string>)
    requires Sorted(s)
    ensures Sorted(r) && multiset(r) == multiset(s) + multiset{x}
  {
    hide Less;
    if s == [] || !Less(x, s[|s| - 1]) then
      SortedAfter(s, x);
      s + [x]
    else
      var n := |s| - 1;
      assert s == s[..n] + [s[n]];
      var r := Insert(s[..n], x);
      LessTotal(s[n], x);
      SortedBelow(r, s[..n], x, s[n]);
      r + [s[n]]
  }

  function SortStrings(s: seq<string>): (r: seq<string>)
    ensures Sorted(r) && multiset(r) == multiset(s)
  {
    if s == [] then []
    else
      assert s == s[..|s| - 1] + [s[|s| - 1]];
      Insert(SortStrings(s[..|s| - 1]), s[|s| - 1])
  }

  function Wildcards(p: SenderPolicy): set<string> {
    set d | d in p.domains :: "*@" + d
  }

  /** `out` is what a policy lists, in the syntax it was compiled from. */
  predicate Lists(p: SenderPolicy, out: seq<string>) {
    Sorted(out) && multiset(out) == multiset(Wildcards(p)) + multiset(p.addresses)
  }

  lemma LastIsGreatest(a: seq<string>, b: seq<string>)
    requires Sorted(a) && a != [] && b != [] && multiset(a) == multiset(b)
    ensures !Less(a[|a| - 1], b[|b| - 1])
  {
    hide Less;
    LessTotal(a[|a| - 1], a[|a| - 1]);
    assert b[|b| - 1] in multiset(a);
    var j :| 0 <= j < |a| && a[j] == b[|b| - 1];
  }

  lemma DropLast(a: seq<string>)
    requires a != []
    ensures multiset(a[..|a| - 1]) == multiset(a) - multiset{a[|a| - 1]}
  {
    assert a == a[..|a| - 1] + [a[|a| - 1]];
  }

  /** The listing does not depend on the order the sets are walked in. */
  lemma {:induction false} SortedUnique(a: seq<string>, b: seq<string>)
    requires Sorted(a) && Sorted(b) && multiset(a) == multiset(b)
    ensures a == b
  {
    hide Less;
    assert |a| == |multiset(a)| == |multiset(b)| == |b|;
    if a != [] {
      var n := |a| - 1;
      LastIsGreatest(a, b);
      LastIsGreatest(b, a);
      LessTotal(a[n], b[n]);
      DropLast(a);
      DropLast(b);
      SortedUnique(a[..n], b[..n]);
      assert a == a[..n] + [a[n]];
      assert b == b[..n] + [b[n]];
    }
  }

  // A walk over a set, in whatever order the map iteration takes.
  method Walk(s: set<string>) returns (out: seq<string>)
    ensures multiset(out) == multiset(s)
  {
    out := [];
    var rest := s;
    while rest != {}
      invariant rest <= s && multiset(out) == multiset(s - rest)
    {
      var x :| x in rest;
      assert s - (rest - {x}) == (s - rest) + {x};
      rest := rest - {x};
      out := out + [x];
    }
    assert s - {} == s;
  }

  method Entries(p: SenderPolicy) returns (out: seq<string>)
    ensures Lists(p, out)
  {
    var domains := Walk(Wildcards(p));
    var addresses := Walk(p.addresses);
    out := SortStrings(domains + addresses);
  }

  lemma RuleOfNormal(entry: string)
    ensures RuleOf(Normal(entry)) == RuleOf(entry)
    ensures match RuleOf(entry)
            case Nothing => true
            case OneAddress(a) => a == Normal(entry)
            case WholeDomain(d) => "*@" + d == Normal(entry)
  {
    NormalIsNormal(entry);
    NormalIsNormal(Normal(entry));
    var e := Normal(entry);
    hide Normal, IndexOf;
    if RuleOf(entry).WholeDomain? {
      var at := IndexOf(e, '@');
      assert |e[..at]| == 1;
      assert e == e[..at] + [e[at]] + e[at + 1..];
    }
  }

  lemma ListedRule(granted: seq<string>, out: seq<string>, x: string) returns (g: string)
    requires Lists(Compile(granted), out) && x in out
    ensures g in granted && RuleOf(g) != Nothing && RuleOf(x) == RuleOf(g)
  {
    hide RuleOf, Normal, Sorted;
    var p := Compile(granted);
    assert x in multiset(out);
    if x in p.addresses {
      g :| g in granted && RuleOf(g) == OneAddress(x);
      RuleOfNormal(g);
    } else {
      assert x in Wildcards(p);
      var d :| d in p.domains && x == "*@" + d;
      g :| g in granted && RuleOf(g) == WholeDomain(d);
      RuleOfNormal(g);
    }
  }

  lemma RuleListed(granted: seq<string>, out: seq<string>, g: string)
    requires Lists(Compile(granted), out) && g in granted && RuleOf(g) != Nothing
    ensures Normal(g) in out && RuleOf(Normal(g)) == RuleOf(g)
  {
    hide RuleOf, Normal, Sorted;
    RuleOfNormal(g);
    var p := Compile(granted);
    assert Normal(g) in p.addresses || Normal(g) in Wildcards(p);
    assert Normal(g) in multiset(out);
  }

  /** Compiling a policy's own listing gives the policy back. */
  lemma RecompileListing(granted: seq<string>, out: seq<string>)
    requires Lists(Compile(granted), out)
    ensures Compile(out) == Compile(granted)
  {
    hide RuleOf, Normal, Lists;
    var p, q := Compile(granted), Compile(out);
    forall x | x in out
      ensures exists g | g in granted :: RuleOf(g) != Nothing && RuleOf(x) == RuleOf(g)
    {
      var g := ListedRule(granted, out, x);
    }
    forall g | g in granted && RuleOf(g) != Nothing
      ensures exists x | x in out :: RuleOf(x) == RuleOf(g)
    {
      RuleListed(granted, out, g);
    }
    assert q.addresses == p.addresses;
    assert q.domains == p.domains;
  }

  // ---------- GrantedSubset ----------

  /** What an account's request leaves of a grant. */
  predicate IsSubset(granted: seq<string>, requested: seq<string>, allowed: seq<string>) {
    var p := Compile(granted);
    if requested == [] then Lists(p, allowed) else allowed == Keep(requested, p, true)
  }

  method GrantedSubset(granted: seq<string>, requested: seq<string>)
    returns (allowed: seq<string>, refused: seq<string>)
    ensures IsSubset(granted, requested, allowed)
    ensures refused == Keep(requested, Compile(granted), false)
  {
    hide Compile, Covered;
    var p := NewSenderPolicy(granted);
    if requested == [] {
      allowed := Entries(p);
      return allowed, [];
    }
    refused := Covers(p, requested);
    var refusedSet := set e | e in refused;
    KeepMembers(requested, p, false);
    allowed := [];
    for i := 0 to |requested|
      invariant allowed == Keep(requested[..i], p, true)
    {
      assert requested[..i + 1][..i] == requested[..i];
      if requested[i] !in refusedSet {
        allowed := allowed + [requested[i]];
      }
    }
    assert requested[..|requested|] == requested;
  }

  /** Every right an account ends up with comes from one entry of the grant. */
  lemma SubsetIsGranted(granted: seq<string>, requested: seq<string>, allowed: seq<string>)
    requires IsSubset(granted, requested, allowed)
    ensures forall a :: Allows(Compile(allowed), a) ==> exists g | g in granted :: Allows(Compile([g]), a)
    ensures forall d :: CanSign(Compile(allowed), d) ==> exists g | g in granted :: CanSign(Compile([g]), d)
  {
    hide Compile, Covered, Allows, CanSign;
    var p := Compile(granted);
    if requested == [] {
      RecompileListing(granted, allowed);
    } else {
      KeepMembers(requested, p, true);
    }
    forall a | Allows(Compile(allowed), a) ensures exists g | g in granted :: Allows(Compile([g]), a) {
      if requested != [] {
        AllowsByOne(allowed, a);
        var e :| e in allowed && Allows(Compile([e]), a);
        CoveredIsNarrower(p, e);
      }
      AllowsByOne(granted, a);
    }
    forall d | CanSign(Compile(allowed), d) ensures exists g | g in granted :: CanSign(Compile([g]), d) {
      if requested != [] {
        SignsByOne(allowed, d);
        var e :| e in allowed && CanSign(Compile([e]), d);
        CoveredIsNarrower(p, e);
      }
      SignsByOne(granted, d);
    }
  }

  /** And nothing granted is lost: with no request every granted right is kept,
      otherwise exactly those of the requested entries the grant covers. */
  lemma SubsetKeepsAll(granted: seq<string>, requested: seq<string>, allowed: seq<string>, a: string)
    requires IsSubset(granted, requested, allowed)
    ensures Allows(Compile(allowed), a) <==>
            if requested == [] then exists g | g in granted :: Allows(Compile([g]), a)
            else exists e | e in requested :: Covered(Compile(granted), e) && Allows(Compile([e]), a)
  {
    hide Compile, Covered, Allows;
    AllowsByOne(allowed, a);
    if requested == [] {
      RecompileListing(granted, allowed);
      AllowsByOne(granted, a);
    } else {
      KeepMembers(requested, Compile(granted), true);
    }
  }
}
