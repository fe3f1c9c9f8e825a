/** What happens to a submitted message before the filters see it: the trace
    header put in front of it and the check of its From header. Models
    `receivedHeader`, `headerSafe` and `checkHeaderFrom` of
    internal/gateway/server.go and the signing gate of internal/gateway/dkim.go.
 */
module Inbound {
  import opened Text
  import opened Message
  import opened Policy
  import opened Accounts
  import Milter
  import Spool

  // ---------- The Received header ----------

  const HEADER_SAFE_LIMIT: nat := 128

  /** Bounded, and free of anything that could end a header. */
  function HeaderSafe(value: string): (r: string)
    ensures |r| <= HEADER_SAFE_LIMIT
    ensures Printable(r) && '\U{7F}' !in r
    ensures |value| <= HEADER_SAFE_LIMIT ==> |r| == |value|
    ensures |value| > HEADER_SAFE_LIMIT ==> |r| == HEADER_SAFE_LIMIT
    ensures forall i :: 0 <= i < |r| ==> r[i] == value[i] || (r[i] == '?' && (value[i] < ' ' || value[i] == '\U{7F}'))
  {
    var v := value[..Min(|value|, HEADER_SAFE_LIMIT)];
    seq(|v|, i requires 0 <= i < |v| => if v[i] < ' ' || v[i] == '\U{7F}' then '?' else v[i])
  }

  predicate Printable(s: string) {
    forall i :: 0 <= i < |s| ==> s[i] >= ' '
  }

  /** A value is written as it is exactly when it is short and printable. */
  lemma HeaderSafeIsIdentity(value: string)
    ensures HeaderSafe(value) == value
            <==> |value| <= HEADER_SAFE_LIMIT && Printable(value) && '\U{7F}' !in value
    ensures HeaderSafe(HeaderSafe(value)) == HeaderSafe(value)
  {
    var v := value[..Min(|value|, HEADER_SAFE_LIMIT)];
    var r := HeaderSafe(value);
    assert forall i :: 0 <= i < |v| ==> r[i] == if v[i] < ' ' || v[i] == '\U{7F}' then '?' else v[i];
    if |value| <= HEADER_SAFE_LIMIT {
      assert v == value;
    }
    assert r[..Min(|r|, HEADER_SAFE_LIMIT)] == r;
  }

  function ReceivedFrom(ehlo: string, remote: string): string {
    "from " + HeaderSafe(ehlo) + " (" + HeaderSafe(remote) + ")"
  }

  function ReceivedBy(host: string, user: string): string {
    "\tby " + HeaderSafe(host) + " (mailout) with ESMTPSA id " + HeaderSafe(user) + ";"
  }

  function ReceivedValue(ehlo: string, remote: string, host: string, user: string, date: string): string {
    ReceivedFrom(ehlo, remote) + "\r\n" + ReceivedBy(host, user) + "\r\n" + ("\t" + date)
  }

  function ReceivedHeader(ehlo: string, remote: string, host: string, user: string, date: string): string {
    PrintField(Field("Received", ReceivedValue(ehlo, remote, host, user, date)))
  }

  lemma TraceLines(first: string, second: string, date: string)
    ensures PrintField(Field("Received", first + "\r\n" + second + "\r\n" + ("\t" + date)))
            == ("Received: " + first + "\r\n") + (second + "\r\n") + ("\t" + date + "\r\n")
  {
  }

  /** The three lines of the trace header. */
  lemma ReceivedText(ehlo: string, remote: string, host: string, user: string, date: string)
    ensures ReceivedHeader(ehlo, remote, host, user, date)
            == ("Received: from " + HeaderSafe(ehlo) + " (" + HeaderSafe(remote) + ")\r\n")
               + ("\tby " + HeaderSafe(host) + " (mailout) with ESMTPSA id " + HeaderSafe(user) + ";\r\n")
               + ("\t" + date + "\r\n")
  {
    hide HeaderSafe, PrintField;
    var a, b, c, d := HeaderSafe(ehlo), HeaderSafe(remote), HeaderSafe(host), HeaderSafe(user);
    TraceLines(ReceivedFrom(ehlo, remote), ReceivedBy(host, user), date);
    assert "Received: " + ("from " + a + " (" + b + ")") + "\r\n" == "Received: from " + a + " (" + b + ")\r\n";
    assert ("\tby " + c + " (mailout) with ESMTPSA id " + d + ";") + "\r\n"
           == "\tby " + c + " (mailout) with ESMTPSA id " + d + ";\r\n";
  }

  predicate Unbroken(s: string) {
    forall i :: 0 <= i < |s| ==> s[i] !in CRLF
  }

  lemma UnbrokenSegment(s: string)
    requires Unbroken(s)
    ensures SegmentOk(s) && ValueOk(s)
  {
    assert IndexOf(s, '\n') < 0;
  }

  lemma ReceivedFromUnbroken(ehlo: string, remote: string)
    ensures Unbroken(ReceivedFrom(ehlo, remote))
  {
    hide HeaderSafe;
    assert Unbroken("from " + HeaderSafe(ehlo) + " (");
  }

  lemma ReceivedByUnbroken(host: string, user: string)
    ensures Unbroken(ReceivedBy(host, user)) && ReceivedBy(host, user) != [] && ReceivedBy(host, user)[0] == '\t'
  {
    hide HeaderSafe;
    assert Unbroken("\tby " + HeaderSafe(host) + " (mailout) with ESMTPSA id ");
  }

  lemma ReceivedValueOk(ehlo: string, remote: string, host: string, user: string, date: string)
    requires Printable(date)
    ensures ValueOk(ReceivedValue(ehlo, remote, host, user, date))
  {
    hide ReceivedFrom, ReceivedBy;
    var a, b, c := ReceivedFrom(ehlo, remote), ReceivedBy(host, user), "\t" + date;
    ReceivedFromUnbroken(ehlo, remote);
    ReceivedByUnbroken(host, user);
    assert Unbroken(c);
    UnbrokenSegment(a);
    UnbrokenSegment(b);
    UnbrokenSegment(c);
    FoldKeepsValueOk(a, b);
    FoldKeepsValueOk(a + "\r\n" + b, c);
  }

  lemma FirstBreak(a: string, rest: string)
    requires Unbroken(a)
    ensures IndexOf(a + "\r\n" + rest, '\n') == |a| + 1
  {
    IndexOfUnique(a + "\r\n" + rest, '\n', |a| + 1);
  }

  lemma SameFirstLine(a: string, x: string, b: string, y: string)
    requires Unbroken(a) && Unbroken(b) && a + "\r\n" + x == b + "\r\n" + y
    ensures a == b && x == y
  {
    hide IndexOf;
    FirstBreak(a, x);
    FirstBreak(b, y);
    var s := a + "\r\n" + x;
    assert a == s[..|a|] && b == s[..|b|];
    assert x == s[|a| + 2..] && y == s[|b| + 2..];
  }

  // What follows the last space is the name and a semicolon.
  lemma LastWord(p: string, u: string)
    requires ' ' !in u
    ensures LastIndexOf(p + " " + u, ' ') == |p|
  {
    hide LastIndexOf;
    assert (p + " " + u)[|p|] == ' ';
  }

  lemma ServedNameIsSafe(u: string)
    requires UsernameOk(u)
    ensures HeaderSafe(u) == u && ' ' !in u + ";"
  {
    HeaderSafeIsIdentity(u);
  }

  lemma ReceivedByNames(host: string, u: string)
    requires UsernameOk(u)
    ensures var b := ReceivedBy(host, u);
            LastIndexOf(b, ' ') >= 0 && b[LastIndexOf(b, ' ') + 1..] == u + ";"
  {
    hide HeaderSafe, LastIndexOf;
    ServedNameIsSafe(u);
    var p := "\tby " + HeaderSafe(host) + " (mailout) with ESMTPSA id";
    LastWord(p, u + ";");
    assert ReceivedBy(host, u) == p + " " + (u + ";");
  }

  /** The trace header names its account: whatever the clients call themselves,
      equal headers come from the same account at the same date. */
  lemma ReceivedNamesAccount(ehlo: string, remote: string, host: string, u: string, date: string,
                             ehlo': string, remote': string, host': string, u': string, date': string)
    requires UsernameOk(u) && UsernameOk(u')
    requires ReceivedValue(ehlo, remote, host, u, date) == ReceivedValue(ehlo', remote', host', u', date')
    ensures u == u' && date == date'
  {
    hide ReceivedFrom, ReceivedBy, LastIndexOf, UsernameOk;
    var a, b, c := ReceivedFrom(ehlo, remote), ReceivedBy(host, u), "\t" + date;
    var a', b', c' := ReceivedFrom(ehlo', remote'), ReceivedBy(host', u'), "\t" + date';
    ReceivedFromUnbroken(ehlo, remote);
    ReceivedFromUnbroken(ehlo', remote');
    ReceivedByUnbroken(host, u);
    ReceivedByUnbroken(host', u');
    Reassociate([], a, b, c);
    Reassociate([], a', b', c');
    SameFirstLine(a, b + "\r\n" + c, a', b' + "\r\n" + c');
    SameFirstLine(b, c, b', c');
    ReceivedByNames(host, u);
    ReceivedByNames(host', u');
    assert u == (u + ";")[..|u + ";"| - 1] && u' == (u' + ";")[..|u' + ";"| - 1];
    assert date == c[1..] && date' == c'[1..];
  }

  /** Headers collected before a non-empty list stay in front of it. */
  lemma {:induction false} ParseAfter(a: seq<Field>, b: seq<Field>, x: string)
    requires b != [] || x == [] || x[0] !in WSP
    ensures ParseFrom(a + b, x) == Msg(a + ParseFrom(b, x).headers, ParseFrom(b, x).body)
    decreases |x|
  {
    if x != [] {
      var line := FirstLine(x);
      var t, rest := Chomp(line), x[|line|..];
      if t != [] {
        if x[0] in WSP {
          assert Fold(a + b, t) == a + Fold(b, t);
          ParseAfter(a, Fold(b, t), rest);
        } else if IndexOf(t, ':') >= 0 {
          var f := LineField(t, IndexOf(t, ':'));
          assert a + b + [f] == a + (b + [f]);
          ParseAfter(a, b + [f], rest);
        }
      }
    }
  }

  /** Whatever the client calls itself, the relay adds exactly one header and
      leaves the rest alone, exactly for the messages that do not start with a
      continuation line. */
  lemma ReceivedIsOneHeader(ehlo: string, remote: string, host: string, user: string, date: string, m: string)
    requires Printable(date)
    ensures var f := Field("Received", ReceivedValue(ehlo, remote, host, user, date));
            Parse(ReceivedHeader(ehlo, remote, host, user, date) + m)
              == Msg([f] + Parse(m).headers, Parse(m).body)
            <==> m == [] || m[0] !in WSP
  {
    hide ParseFrom, ValueOk, ReceivedValue;
    var v := ReceivedValue(ehlo, remote, host, user, date);
    ReceivedValueOk(ehlo, remote, host, user, date);
    var f := Field("Received", v);
    ReadField([], f, m);
    assert [] + [f] == [f];
    if m == [] || m[0] !in WSP {
      ParseAfter([f], [], m);
      assert [f] + [] == [f];
    } else {
      FoldedIntoFirst(f, m);
    }
  }

  // A leading continuation line changes the header before it.
  lemma FoldedIntoFirst(f: Field, m: string)
    requires m != [] && m[0] in WSP
    ensures ParseFrom([f], m).headers != [] && ParseFrom([f], m).headers[0] != f
  {
    var line := FirstLine(m);
    var t := Chomp(line);
    assert t != [] by { assert line[0] !in CRLF; }
    var g := Field(f.name, f.value + "\r\n" + t);
    assert Fold([f], t) == [g];
    FirstGrows([g], m[|line|..]);
    assert |g.value| > |f.value|;
  }

  lemma {:induction false} FirstGrows(hs: seq<Field>, x: string)
    requires hs != []
    ensures var r := ParseFrom(hs, x).headers;
            |r| >= |hs| && r[0].name == hs[0].name && |r[0].value| >= |hs[0].value|
    decreases |x|
  {
    if x != [] {
      var line := FirstLine(x);
      var t := Chomp(line);
      if t != [] {
        if Continues(hs, line) {
          FirstGrows(Fold(hs, t), x[|line|..]);
        } else if IndexOf(t, ':') >= 0 {
          FirstGrows(hs + [LineField(t, IndexOf(t, ':'))], x[|line|..]);
        }
      }
    }
  }

  // ---------- The From header ----------

  datatype Refusal = Unterminated | SpaceBeforeColon | NoFrom | ManyFroms | NotAllowed

  predicate SpacedName(f: Field) {
    TrimRight(f.name, WSP) != f.name
  }

  function FromValues(hs: seq<Field>): seq<string> {
    Values(hs, "From")
  }

  /** What the header rules say of a list of headers. */
  function JudgeFrom(hs: seq<Field>, p: SenderPolicy): Option<Refusal> {
    if exists f | f in hs :: SpacedName(f) then Some(SpaceBeforeColon)
    else if FromValues(hs) == [] then Some(NoFrom)
    else if |FromValues(hs)| > 1 then Some(ManyFroms)
    else if Allows(p, FromValues(hs)[0]) then None
    else Some(NotAllowed)
  }

  /** The verdict on a message: only the bounded header block is looked at. */
  function CheckFrom(x: string, p: SenderPolicy): Option<Refusal> {
    var b := HeaderBlock(x);
    if !b.terminated then Some(Unterminated) else JudgeFrom(Parse(b.text).headers, p)
  }

  /** Looking at the prefix is looking at the whole message: it is accepted
      exactly when its header block ends within the bound and the headers of the
      whole message pass. */
  lemma FromCheckIsExact(x: string, p: SenderPolicy)
    ensures CheckFrom(x, p) == if HeaderBlock(x).terminated then JudgeFrom(Parse(x).headers, p) else Some(Unterminated)
  {
    if HeaderBlock(x).terminated {
      PrefixDecides(x);
    }
  }

  method CheckHeaderFrom(body: Spool.Spool, p: SenderPolicy) returns (r: Option<Refusal>)
    requires body.Valid()
    modifies if body.file == null then {} else {body.file}
    ensures body.Valid() && body.Contents() == old(body.Contents())
    ensures r == CheckFrom(body.Contents(), p)
  {
    hide Parse, HeaderBlock, Allows, EqualFold, SpacedName;
    var b := body.HeaderBlock();
    if !b.terminated {
      return Some(Unterminated);
    }
    var m := ParseMessage(b.text);
    var found: seq<string> := [];
    for i := 0 to |m.headers|
      invariant body.Valid() && body.Contents() == old(body.Contents())
      invariant found == FromValues(m.headers[..i])
      invariant forall k :: 0 <= k < i ==> !SpacedName(m.headers[k])
    {
      assert m.headers[..i + 1][..i] == m.headers[..i];
      if SpacedName(m.headers[i]) {
        assert m.headers[i] in m.headers;
        return Some(SpaceBeforeColon);
      }
      if EqualFold(m.headers[i].name, "From") {
        found := found + [m.headers[i].value];
      }
    }
    assert m.headers[..|m.headers|] == m.headers;
    if found == [] {
      return Some(NoFrom);
    }
    if |found| > 1 {
      return Some(ManyFroms);
    }
    return if Allows(p, found[0]) then None else Some(NotAllowed);
  }

  /** A message is accepted exactly when its header block ends within the bound,
      no header name ends in white space, and the one From header it has is
      allowed. */
  lemma FromAcceptedIff(x: string, p: SenderPolicy)
    ensures CheckFrom(x, p).None? <==>
            var hs := Parse(x).headers;
            && HeaderBlock(x).terminated
            && (forall f | f in hs && f.name != [] :: f.name[|f.name| - 1] != ' ' && f.name[|f.name| - 1] != '\t')
            && exists i :: OnlyOne(hs, "From", i) && Allows(p, hs[i].value)
  {
    FromCheckIsExact(x, p);
    hide Parse, HeaderBlock, Allows, EqualFold, CheckFrom, Values, SpacedName, OnlyOne;
    var hs := Parse(x).headers;
    forall f | f in hs
      ensures SpacedName(f) <==> f.name != [] && (f.name[|f.name| - 1] == ' ' || f.name[|f.name| - 1] == '\t')
    {
      SpacedIs(f);
    }
    OneValue(hs, "From");
  }

  lemma SpacedIs(f: Field)
    ensures SpacedName(f) <==> f.name != [] && (f.name[|f.name| - 1] == ' ' || f.name[|f.name| - 1] == '\t')
  {
  }

  lemma FromValuesPrepend(f: Field, hs: seq<Field>)
    ensures FromValues([f] + hs) == (if EqualFold(f.name, "From") then [f.value] else []) + FromValues(hs)
  {
    ValuesConcat([f], hs, "From");
    ValueOfOne(f, "From");
  }

  /** A relayed message carries exactly one From, the one its sender wrote, and
      the policy allows it. */
  lemma AcceptedFrom(ehlo: string, remote: string, host: string, user: string, date: string, m: string, p: SenderPolicy)
    requires Printable(date) && (m == [] || m[0] !in WSP)
    requires CheckFrom(ReceivedHeader(ehlo, remote, host, user, date) + m, p).None?
    ensures |FromValues(Parse(m).headers)| == 1 && Allows(p, FromValues(Parse(m).headers)[0])
  {
    var x := ReceivedHeader(ehlo, remote, host, user, date) + m;
    var f := Field("Received", ReceivedValue(ehlo, remote, host, user, date));
    FromCheckIsExact(x, p);
    ReceivedIsOneHeader(ehlo, remote, host, user, date, m);
    hide Parse, HeaderBlock, ReceivedValue, ReceivedHeader, Allows, SpacedName;
    FromValuesPrepend(f, Parse(m).headers);
    assert |Lower("Received")| != |Lower("From")|;
  }

  // ---------- An accepted message a filter is not shown whole ----------

  /** Text whose first line is no header. */
  predicate Colonless(m: string) {
    m != [] && m[0] !in WSP && Chomp(FirstLine(m)) != [] && ':' !in Chomp(FirstLine(m))
  }

  lemma ColonlessIsBody(hs: seq<Field>, m: string)
    requires Colonless(m)
    ensures ParseFrom(hs, m) == Msg(hs, m)
  {
  }

  lemma {:induction false} ValueEnds(v: string)
    requires ValueOk(v) && v != []
    ensures v[|v| - 1] != '\n'
    decreases |v|
  {
    hide IndexOf;
    var i := IndexOf(v, '\n');
    if i >= 0 {
      ValueEnds(v[i + 1..]);
    }
  }

  lemma FieldsEndUnblank(hs: seq<Field>)
    requires HeadersOk(hs) && hs != []
    ensures !EndsBlank(PrintFields(hs))
  {
    hide ValueOk;
    var f, p := hs[|hs| - 1], PrintFields(hs);
    if f.value != [] {
      ValueEnds(f.value);
    }
    var line := f.name + ": " + f.value;
    assert PrintField(f) == line + "\r\n";
    assert line[|line| - 1] != '\n';
    assert p == PrintFields(hs[..|hs| - 1]) + line + "\r\n";
    assert p[|p| - 3] == line[|line| - 1] && p[|p| - 2] == '\r' && p[|p| - 1] == '\n';
  }

  /** Headers followed by such text: the filter is shown less than the message, or
      nothing of its headers. */
  lemma ColonlessIsNotFaithful(hs: seq<Field>, m: string)
    requires HeadersOk(hs) && hs != [] && Colonless(m)
    ensures Parse(PrintFields(hs) + m) == Msg(hs, m) && !Milter.Faithful(PrintFields(hs) + m)
  {
    hide ParseFrom, Colonless, HeadersOk, HeaderBlock, PrintFields, EndsBlank;
    var x := PrintFields(hs) + m;
    assert hs[..|hs|] == hs;
    ReadFields(hs, |hs|, m);
    ColonlessIsBody(hs, m);
    Milter.ViewIsParse(x);
    var b := HeaderBlock(x);
    if b.terminated {
      assert x[..|PrintFields(hs)|] == PrintFields(hs);
      TerminatedEndsBlank(x);
      FieldsEndUnblank(hs);
      var rest := x[|b.text|..];
      assert b.text == x[..|b.text|];
      assert rest != m;
    }
  }

  lemma PlainNames(v: string, value: string)
    ensures !SpacedName(Field("Received", value)) && !SpacedName(Field("From", v))
    ensures !EqualFold("Received", "From") && EqualFold("From", "From")
  {
    assert |Lower("Received")| != |Lower("From")|;
  }

  lemma OneFromIsJudged(value: string, v: string, p: SenderPolicy)
    requires Allows(p, v)
    ensures JudgeFrom([Field("Received", value), Field("From", v)], p).None?
  {
    hide Allows, SpacedName, EqualFold, Values;
    var f, g := Field("Received", value), Field("From", v);
    PlainNames(v, value);
    assert [f, g] == [f] + [g];
    ValuesConcat([f], [g], "From");
    ValueOfOne(f, "From");
    ValueOfOne(g, "From");
    assert FromValues([f, g]) == [v];
  }

  // What the relay writes down for a From header and text that is no header.
  function Composed(ehlo: string, remote: string, host: string, user: string, date: string, v: string, line: string,
                   rest: string): string
  {
    ReceivedHeader(ehlo, remote, host, user, date) + (PrintField(Field("From", v)) + (line + "\r\n\r\n" + rest))
  }

  lemma ComposedParts(ehlo: string, remote: string, host: string, user: string, date: string, v: string, line: string,
                     rest: string)
    requires Printable(date) && SegmentOk(v)
    ensures var hs := [Field("Received", ReceivedValue(ehlo, remote, host, user, date)), Field("From", v)];
            && HeadersOk(hs)
            && Composed(ehlo, remote, host, user, date, v, line, rest) == PrintFields(hs) + (line + "\r\n\r\n" + rest)
  {
    hide ReceivedValue, ValueOk, PrintField;
    var f, g := Field("Received", ReceivedValue(ehlo, remote, host, user, date)), Field("From", v);
    ReceivedValueOk(ehlo, remote, host, user, date);
    SegmentIsValue(v);
    var hs := [f, g];
    assert hs[..1] == [f] && [f][..0] == [];
    assert PrintFields([f]) == PrintFields([]) + PrintField(f) == PrintField(f);
    assert PrintFields(hs) == PrintField(f) + PrintField(g);
  }

  lemma ComposedEnds(x: string, before: string, line: string, rest: string)
    requires x == before + (line + "\r\n\r\n" + rest) && |x| <= MAX_HEADER_BYTES
    ensures HeaderBlock(x).terminated
  {
    assert x[..|x|] == x;
    var k := |before| + |line|;
    assert x[k..k + 4] == "\r\n\r\n";
    FindIsFirst(x, "\r\n\r\n", k);
    hide Find;
  }

  lemma LineIsColonless(line: string, rest: string)
    requires Unbroken(line) && line != [] && line[0] !in WSP && ':' !in line
    ensures Colonless(line + "\r\n\r\n" + rest)
  {
    UnbrokenSegment(line);
    ReadLine(line, "\r\n" + rest);
    assert line + "\r\n" + ("\r\n" + rest) == line + "\r\n\r\n" + rest;
  }

  /** The relay accepts such messages: one allowed From header, then a line that is
      no header. For each of them some filter action is applied to less than the
      message. */
  lemma AcceptedIsNotFaithful(ehlo: string, remote: string, host: string, user: string, date: string, v: string,
                              line: string, rest: string, p: SenderPolicy)
    requires Printable(date) && SegmentOk(v) && Allows(p, v)
    requires Unbroken(line) && line != [] && line[0] !in WSP && ':' !in line
    requires |Composed(ehlo, remote, host, user, date, v, line, rest)| <= MAX_HEADER_BYTES
    ensures var x := Composed(ehlo, remote, host, user, date, v, line, rest);
            && CheckFrom(x, p).None? && !Milter.Faithful(x)
            && exists acts :: Milter.Streamed(x, acts) != Milter.InMemory(x, acts)
  {
    hide Composed, SegmentOk, Unbroken, Allows, PrintFields, Parse, JudgeFrom, HeaderBlock, Milter.Faithful,
         ReceivedValue, Milter.Streamed, Milter.InMemory, HeadersOk, Colonless;
    var x, m := Composed(ehlo, remote, host, user, date, v, line, rest), line + "\r\n\r\n" + rest;
    var value := ReceivedValue(ehlo, remote, host, user, date);
    var hs := [Field("Received", value), Field("From", v)];
    ComposedParts(ehlo, remote, host, user, date, v, line, rest);
    LineIsColonless(line, rest);
    ColonlessIsNotFaithful(hs, m);
    ComposedEnds(x, PrintFields(hs), line, rest);
    FromCheckIsExact(x, p);
    OneFromIsJudged(value, v, p);
    Milter.StreamingIsRightIff(x);
  }

  // ---------- The signing gate ----------

  /** The domain whose key is tried: the envelope sender's if the gateway has a
      key for it, else the first From header's. */
  function KeyDomain(keys: set<string>, from: string, body: string): Option<string> {
    if DomainOf(from) in keys then Some(DomainOf(from))
    else
      var froms := FromValues(Parse(HeaderBlock(body).text).headers);
      if froms != [] && DomainOf(froms[0]) in keys then Some(DomainOf(froms[0])) else None
  }

  /** The domain a message leaves signed for, if any. */
  function SignedFor(keys: set<string>, p: SenderPolicy, from: string, body: string): Option<string> {
    match KeyDomain(keys, from, body)
    case None => None
    case Some(d) => if CanSign(p, d) then Some(d) else None
  }

  /** Signed for the sender's own domain, or where there is no key for that for
      the first From header's, and only for a domain the policy lets be signed. */
  lemma SignedForIff(keys: set<string>, p: SenderPolicy, from: string, body: string, d: string)
    ensures SignedFor(keys, p, from, body) == Some(d) <==>
            var hs := Parse(HeaderBlock(body).text).headers;
            && d in keys && CanSign(p, d)
            && (d == DomainOf(from)
                || (DomainOf(from) !in keys && exists i :: FirstOf(hs, "From", i) && DomainOf(hs[i].value) == d))
  {
    hide Parse, HeaderBlock, DomainOf, CanSign, Values, EqualFold;
    var hs := Parse(HeaderBlock(body).text).headers;
    if Values(hs, "From") != [] {
      var k := HasFirst(hs, "From");
    }
    forall i | FirstOf(hs, "From", i) ensures Values(hs, "From") != [] && Values(hs, "From")[0] == hs[i].value {
      FirstValue(hs, "From", i);
    }
  }

  lemma AllowedDomain(p: SenderPolicy, from: string)
    requires Compiled(p) && Allows(p, from)
    ensures DomainOf(from) != [] && Normal(DomainOf(from)) == DomainOf(from) && Sendable(p, DomainOf(from))
  {
    hide DomainOf, Allows, TrimLeft, Normal, Bracketed, Compiled;
    SendableDomains(p, DomainOf(from));
    var x :| x in Reachable(p) && TrimLeft(x, SPACE) == DomainOf(from);
    SignableIsNormal(p, x);
  }

  /** Under a plain list, every sender the policy allows is signed for its own
      domain as soon as the gateway has a key for it. */
  lemma AllowedIsSigned(entries: seq<string>, keys: set<string>, from: string, body: string)
    requires forall e | e in entries :: PlainRule(RuleOf(e))
    requires Allows(Compile(entries), from) && DomainOf(from) in keys
    ensures SignedFor(keys, Compile(entries), from, body) == Some(DomainOf(from))
  {
    hide RuleOf, PlainRule, Compile, Compiled, Aligned, DomainOf, Allows, Normal, CanSign, Sendable;
    var p := Compile(entries);
    CompileIsCompiled(entries);
    PlainListsAreAligned(entries);
    SigningIsSending(p);
    AllowedDomain(p, from);
  }
}
