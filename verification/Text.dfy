/** The string operations the relay is written with, over byte strings.

    A byte is a `char`; case folding and white space are the ASCII ones.
 */
module Text {

  datatype Option<+T> = None | Some(value: T)

  const SPACE: set<char> := {' ', '\t', '\n', '\r', '\U{0B}', '\U{0C}'}
  const WSP: set<char> := {' ', '\t'}
  const CRLF: set<char> := {'\r', '\n'}

  function Min(a: nat, b: nat): nat {
    if a < b then a else b
  }

  // ---------- Trimming ----------

  function TrimRight(s: string, cut: set<char>): (r: string)
    ensures r <= s
    ensures r != [] ==> r[|r| - 1] !in cut
    ensures forall i :: |r| <= i < |s| ==> s[i] in cut
  {
    if s == [] || s[|s| - 1] !in cut then s else TrimRight(s[..|s| - 1], cut)
  }

  function TrimLeft(s: string, cut: set<char>): (r: string)
    ensures |r| <= |s| && r == s[|s| - |r|..]
    ensures r != [] ==> r[0] !in cut
    ensures forall i :: 0 <= i < |s| - |r| ==> s[i] in cut
  {
    if s == [] || s[0] !in cut then s else TrimLeft(s[1..], cut)
  }

  function Trim(s: string): string {
    TrimLeft(TrimRight(s, SPACE), SPACE)
  }

  predicate Trimmed(s: string) {
    s != [] ==> s[0] !in SPACE && s[|s| - 1] !in SPACE
  }

  lemma TrimIsTrimmed(s: string)
    ensures Trimmed(Trim(s))
    ensures Trimmed(s) ==> Trim(s) == s
  {
  }

  // ---------- Case ----------

  function LowerChar(c: char): (r: char)
    ensures if 'A' <= c <= 'Z' then r as int - 'a' as int == c as int - 'A' as int else r == c
  {
    if 'A' <= c <= 'Z' then (c as int + 32) as char else c
  }

  function Lower(s: string): (r: string)
    ensures |r| == |s|
    ensures forall i :: 0 <= i < |s| ==> r[i] == LowerChar(s[i])
  {
    seq(|s|, i requires 0 <= i < |s| => LowerChar(s[i]))
  }

  predicate EqualFold(a: string, b: string) {
    Lower(a) == Lower(b)
  }

  lemma LowerIdempotent(s: string)
    ensures Lower(Lower(s)) == Lower(s)
  {
  }

  lemma LowerTrimmed(s: string)
    requires Trimmed(s)
    ensures Trimmed(Lower(s))
  {
  }

  // ---------- Searching ----------

  /** The first position of `c`, or -1. */
  function IndexOf(s: string, c: char): (i: int)
    ensures -1 <= i < |s|
    ensures i >= 0 ==> s[i] == c && forall k :: 0 <= k < i ==> s[k] != c
    ensures i < 0 ==> c !in s
  {
    if s == [] then -1
    else if s[0] == c then 0
    else var i := IndexOf(s[1..], c); if i < 0 then -1 else i + 1
  }

  /** The last position of `c`, or -1. */
  function LastIndexOf(s: string, c: char): (i: int)
    ensures -1 <= i < |s|
    ensures i >= 0 ==> s[i] == c && forall k :: i < k < |s| ==> s[k] != c
    ensures i < 0 ==> c !in s
  {
    if s == [] then -1
    else if s[|s| - 1] == c then |s| - 1
    else LastIndexOf(s[..|s| - 1], c)
  }

  /** The first position at which `sep` occurs, or -1. */
  function Find(s: string, sep: string): (i: int)
    ensures i >= 0 ==> i + |sep| <= |s| && s[i..i + |sep|] == sep
    ensures i >= -1
    decreases |s|
  {
    if |s| < |sep| then -1
    else if s[..|sep|] == sep then 0
    else if s == [] then -1
    else
      var i := Find(s[1..], sep);
      if i < 0 then -1 else assert s[1..][i..i + |sep|] == s[i + 1..i + 1 + |sep|]; i + 1
  }

  /** `Find` misses no occurrence and returns the first one. */
  lemma FindIsFirst(s: string, sep: string, k: nat)
    requires k + |sep| <= |s| && s[k..k + |sep|] == sep
    ensures 0 <= Find(s, sep) <= k
    decreases |s|
  {
    if s[..|sep|] != sep {
      assert s[1..][k - 1..k - 1 + |sep|] == sep;
      FindIsFirst(s[1..], sep, k - 1);
    }
  }

  lemma IndexOfUnique(s: string, c: char, i: nat)
    requires i < |s| && s[i] == c && forall k :: 0 <= k < i ==> s[k] != c
    ensures IndexOf(s, c) == i
  {
  }

  // ---------- Ordering ----------

  /** Byte-wise order, the one Go compares strings with. */
  predicate Less(a: string, b: string)
    decreases |a|
  {
    b != [] && (a == [] || a[0] < b[0] || (a[0] == b[0] && Less(a[1..], b[1..])))
  }

  lemma LessTotal(a: string, b: string)
    ensures a == b || Less(a, b) || Less(b, a)
    ensures !(Less(a, b) && Less(b, a))
    ensures !Less(a, a)
    decreases |a|
  {
    if a != [] && b != [] {
      LessTotal(a[1..], b[1..]);
      LessTotal(a[1..], a[1..]);
      if a[0] == b[0] && a[1..] == b[1..] {
        assert a == [a[0]] + a[1..] && b == [b[0]] + b[1..];
      }
    } else if a != [] {
      LessTotal(a[1..], a[1..]);
    }
  }

  lemma LessTransitive(a: string, b: string, c: string)
    requires Less(a, b) && Less(b, c)
    ensures Less(a, c)
    decreases |a|
  {
    if a != [] && a[0] == b[0] == c[0] {
      LessTransitive(a[1..], b[1..], c[1..]);
    }
  }

  /** The order of the first place where two strings differ; a prefix comes first. */
  lemma {:induction false} LessIsLexicographic(a: string, b: string)
    ensures Less(a, b) <==> exists k :: 0 <= k <= |a| && k < |b| && a[..k] == b[..k] && (k == |a| || a[k] < b[k])
    decreases |a|
  {
    if a == [] || b == [] || a[0] != b[0] {
      if b != [] {
        assert a[..0] == b[..0];
      }
      assert forall k :: 0 < k <= |a| && k < |b| ==> a[..k][0] == a[0] && b[..k][0] == b[0];
    } else {
      var c, d := a[1..], b[1..];
      LessIsLexicographic(c, d);
      forall k | 0 < k <= |a| && k < |b| ensures a[..k] == b[..k] <==> c[..k - 1] == d[..k - 1] {
        assert a[..k] == [a[0]] + c[..k - 1] && b[..k] == [b[0]] + d[..k - 1];
        assert a[..k][1..] == c[..k - 1] && b[..k][1..] == d[..k - 1];
      }
      if Less(c, d) {
        var k :| 0 <= k <= |c| && k < |d| && c[..k] == d[..k] && (k == |c| || c[k] < d[k]);
        assert a[..k + 1] == b[..k + 1] && (k + 1 == |a| || a[k + 1] < b[k + 1]);
      }
      if k :| 0 <= k <= |a| && k < |b| && a[..k] == b[..k] && (k == |a| || a[k] < b[k]) {
        assert c[..k - 1] == d[..k - 1] && (k - 1 == |c| || c[k - 1] < d[k - 1]);
      }
    }
  }

  lemma CountAppend(s: seq<string>, x: string, e: string)
    ensures multiset(s + [x])[e] == multiset(s)[e] + if x == e then 1 else 0
  {
    assert multiset(s + [x]) == multiset(s) + multiset{x};
  }

  lemma CountLast(s: seq<string>, e: string)
    requires s != []
    ensures multiset(s)[e] == multiset(s[..|s| - 1])[e] + if s[|s| - 1] == e then 1 else 0
  {
    CountAppend(s[..|s| - 1], s[|s| - 1], e);
    assert s == s[..|s| - 1] + [s[|s| - 1]];
  }

  // ---------- Numbers ----------

  const DIGITS := "0123456789"

  function Decimal(n: nat): (r: string)
    ensures r != [] && forall i :: 0 <= i < |r| ==> r[i] in DIGITS
  {
    if n < 10 then [DIGITS[n]] else Decimal(n / 10) + [DIGITS[n % 10]]
  }

  /** The number a string of digits is read as. */
  function Numeral(s: string): nat
    requires forall i :: 0 <= i < |s| ==> '0' <= s[i] <= '9'
  {
    if s == [] then 0 else 10 * Numeral(s[..|s| - 1]) + (s[|s| - 1] as int - '0' as int)
  }

  lemma Digit(k: nat)
    requires k < 10
    ensures DIGITS[k] as int == '0' as int + k
  {
  }

  lemma {:induction false} DecimalReads(n: nat)
    ensures forall i :: 0 <= i < |Decimal(n)| ==> '0' <= Decimal(n)[i] <= '9'
    ensures Numeral(Decimal(n)) == n
  {
    Digit(n % 10);
    if n >= 10 {
      DecimalReads(n / 10);
      var d := Decimal(n);
      assert d[..|d| - 1] == Decimal(n / 10);
    } else {
      assert Decimal(n)[..0] == [];
    }
  }

  lemma DecimalInjective(a: nat, b: nat)
    requires Decimal(a) == Decimal(b)
    ensures a == b
  {
    DecimalReads(a);
    DecimalReads(b);
  }
}
