/** Passing a message through the filters. Models internal/gateway/milter.go:
    only a bounded header block is parsed and the body is streamed, and the
    result is compared with parsing and printing the whole message.
 */
module Milter {
  import opened Text
  import opened Message
  import Spool

  datatype Action =
    | AddHeader(name: string, value: string)
    | InsertHeader(index: nat, name: string, value: string)
    | ChangeHeader(index: nat, name: string, value: string)
    | ReplaceBody(chunk: string)
    | ChangeFrom(from: string)
    | AddRcpt(rcpt: string)
    | DelRcpt(rcpt: string)
    | Quarantine
    | Unsupported
  {
    predicate EditsHeaders() {
      AddHeader? || InsertHeader? || ChangeHeader?
    }
  }

  datatype Mail = Mail(from: string, to: seq<string>, body: string)

  // ---------- What a filter asks for ----------

  ghost function Edited(hs: seq<Field>, acts: seq<Action>): seq<Field> {
    if acts == [] then hs
    else
      var before := Edited(hs, acts[..|acts| - 1]);
      match acts[|acts| - 1]
      case AddHeader(n, v) => before + [Field(n, v)]
      case InsertHeader(i, n, v) => Inserted(before, i, Field(n, v))
      case ChangeHeader(i, n, v) => Changed(before, i, n, v)
      case _ => before
  }

  /** The replacement body: its chunks in order, or none. */
  function Replacement(acts: seq<Action>): Option<string> {
    if acts == [] then None
    else
      var before := Replacement(acts[..|acts| - 1]);
      match acts[|acts| - 1]
      case ReplaceBody(chunk) => Some((if before.Some? then before.value else []) + chunk)
      case _ => before
  }

  function Unbracket(addr: string): string {
    var a := if addr != [] && addr[0] == '<' then addr[1..] else addr;
    if a != [] && a[|a| - 1] == '>' then a[..|a| - 1] else a
  }

  function Without(list: seq<string>, addr: string): seq<string> {
    if list == [] then []
    else
      var n := |list| - 1;
      Without(list[..n], addr) + if EqualFold(list[n], addr) then [] else [list[n]]
  }

  method RemoveRecipient(list: seq<string>, addr: string) returns (out: seq<string>)
    ensures out == Without(list, addr)
  {
    hide EqualFold;
    out := [];
    for i := 0 to |list|
      invariant out == Without(list[..i], addr)
    {
      assert list[..i + 1][..i] == list[..i];
      if !EqualFold(list[i], addr) {
        out := out + [list[i]];
      }
    }
    assert list[..|list|] == list;
  }

  /** Every other recipient stays, in order, and no spelling of this one does. */
  lemma {:induction false} WithoutIsExact(list: seq<string>, addr: string, r: string)
    ensures multiset(Without(list, addr))[r] == if EqualFold(r, addr) then 0 else multiset(list)[r]
  {
    hide EqualFold;
    if list != [] {
      var n := |list| - 1;
      WithoutIsExact(list[..n], addr, r);
      CountLast(list, r);
      CountAppend(Without(list[..n], addr), list[n], r);
    }
  }

  function NewFrom(from: string, acts: seq<Action>): string {
    if acts == [] then from
    else if acts[|acts| - 1].ChangeFrom? then Unbracket(acts[|acts| - 1].from)
    else NewFrom(from, acts[..|acts| - 1])
  }

  function NewTo(to: seq<string>, acts: seq<Action>): seq<string> {
    if acts == [] then to
    else
      var before := NewTo(to, acts[..|acts| - 1]);
      match acts[|acts| - 1]
      case AddRcpt(r) => before + [Unbracket(r)]
      case DelRcpt(r) => Without(before, Unbracket(r))
      case _ => before
  }

  // ---------- What actions add up to ----------

  /** One prefix and one suffix, each only where it is. */
  lemma UnbracketIs(a: string)
    ensures Unbracket("<" + a + ">") == a
    ensures a == [] || a[|a| - 1] != '>' ==> Unbracket("<" + a) == a
    ensures a == [] || a[0] != '<' ==> Unbracket(a + ">") == a
    ensures a == [] || (a[0] != '<' && a[|a| - 1] != '>') ==> Unbracket(a) == a
  {
    assert ("<" + a + ">")[1..] == a + ">" && (a + ">")[..|a|] == a && ("<" + a)[1..] == a;
  }

  /** The last change of sender decides. */
  lemma {:induction false} LastSender(from: string, acts: seq<Action>, i: nat)
    requires i < |acts| && acts[i].ChangeFrom? && forall j :: i < j < |acts| ==> !acts[j].ChangeFrom?
    ensures NewFrom(from, acts) == Unbracket(acts[i].from)
  {
    hide Unbracket;
    if i < |acts| - 1 {
      LastSender(from, acts[..|acts| - 1], i);
    }
  }

  lemma {:induction false} SenderStays(from: string, acts: seq<Action>)
    requires forall a | a in acts :: !a.ChangeFrom?
    ensures NewFrom(from, acts) == from
  {
    if acts != [] {
      assert acts[|acts| - 1] in acts;
      SenderStays(from, acts[..|acts| - 1]);
    }
  }

  /** No action from `k` on takes the recipient out. */
  predicate Stays(acts: seq<Action>, k: nat, r: string) {
    forall j :: k <= j < |acts| && acts[j].DelRcpt? ==> !EqualFold(r, Unbracket(acts[j].rcpt))
  }

  ghost predicate AddedAt(acts: seq<Action>, i: int, r: string) {
    0 <= i < |acts| && acts[i].AddRcpt? && Unbracket(acts[i].rcpt) == r && Stays(acts, i + 1, r)
  }

  lemma StaysNext(acts: seq<Action>, k: nat, r: string)
    requires k < |acts|
    ensures var last := acts[|acts| - 1];
            Stays(acts, k, r)
            <==> Stays(acts[..|acts| - 1], k, r) && (last.DelRcpt? ==> !EqualFold(r, Unbracket(last.rcpt)))
  {
    hide Unbracket, EqualFold;
  }

  lemma AddedNext(acts: seq<Action>, r: string)
    requires acts != []
    ensures var n := |acts| - 1;
            (exists i :: AddedAt(acts, i, r))
            <==> ((exists i :: AddedAt(acts[..n], i, r))
                  && (acts[n].DelRcpt? ==> !EqualFold(r, Unbracket(acts[n].rcpt))))
                 || (acts[n].AddRcpt? && Unbracket(acts[n].rcpt) == r)
  {
    hide Unbracket, EqualFold, Stays;
    var n := |acts| - 1;
    assert Stays(acts, n + 1, r) by { StaysAfter(acts, r); }
    forall i | 0 <= i < n ensures AddedAt(acts, i, r)
      <==> AddedAt(acts[..n], i, r) && (acts[n].DelRcpt? ==> !EqualFold(r, Unbracket(acts[n].rcpt)))
    {
      StaysNext(acts, i + 1, r);
    }
    assert acts[n].AddRcpt? && Unbracket(acts[n].rcpt) == r ==> AddedAt(acts, n, r);
  }

  lemma StaysAfter(acts: seq<Action>, r: string)
    ensures Stays(acts, |acts|, r)
  {
  }

  lemma {:induction false} WithoutMembers(list: seq<string>, addr: string, r: string)
    ensures r in Without(list, addr) <==> r in list && !EqualFold(r, addr)
  {
    WithoutIsExact(list, addr, r);
    hide Without, EqualFold;
    assert r in Without(list, addr) <==> multiset(Without(list, addr))[r] > 0;
    assert r in list <==> multiset(list)[r] > 0;
  }

  /** A recipient is left exactly when it was there or was added, and nothing
      after that took it out. */
  lemma {:induction false} RecipientsLeft(to: seq<string>, acts: seq<Action>, r: string)
    ensures r in NewTo(to, acts) <==> (r in to && Stays(acts, 0, r)) || exists i :: AddedAt(acts, i, r)
  {
    hide Unbracket, EqualFold, Stays, AddedAt, Without;
    if acts == [] {
      assert Stays(acts, 0, r) by { StaysAfter(acts, r); }
      assert forall i :: !AddedAt(acts, i, r) by { NoneAdded(r); }
    } else {
      var n := |acts| - 1;
      var before := NewTo(to, acts[..n]);
      RecipientsLeft(to, acts[..n], r);
      StaysNext(acts, 0, r);
      AddedNext(acts, r);
      if acts[n].DelRcpt? {
        WithoutMembers(before, Unbracket(acts[n].rcpt), r);
      }
    }
  }

  lemma NoneAdded(r: string)
    ensures forall i :: !AddedAt([], i, r)
  {
  }

  /** Chunks of a replacement are put together, and without one there is none. */
  lemma {:induction false} ReplacementConcat(a: seq<Action>, b: seq<Action>)
    ensures var x, y := Replacement(a), Replacement(b);
            Replacement(a + b) == if y.None? then x else if x.None? then y else Some(x.value + y.value)
  {
    if b == [] {
      assert a + b == a;
    } else {
      var n := |b| - 1;
      ReplacementConcat(a, b[..n]);
      assert (a + b)[..|a + b| - 1] == a + b[..n];
      if b[n].ReplaceBody? {
        var chunk := b[n].chunk;
        assert [] + chunk == chunk;
        assert forall x: string, y: string :: x + y + chunk == x + (y + chunk);
      }
    }
  }

  lemma ReplacementOfOne(a: Action)
    ensures Replacement([a]) == if a.ReplaceBody? then Some(a.chunk) else None
  {
    assert [a][..0] == [];
    assert [] + (if a.ReplaceBody? then a.chunk else []) == (if a.ReplaceBody? then a.chunk else []);
  }

  /** Edits one after the other. */
  lemma {:induction false} EditedConcat(hs: seq<Field>, a: seq<Action>, b: seq<Action>)
    ensures Edited(hs, a + b) == Edited(Edited(hs, a), b)
  {
    if b == [] {
      assert a + b == a;
    } else {
      var n := |b| - 1;
      EditedConcat(hs, a, b[..n]);
      assert (a + b)[..|a + b| - 1] == a + b[..n];
    }
  }

  lemma EditedByOne(hs: seq<Field>, a: Action)
    ensures a.AddHeader? ==> Edited(hs, [a]) == hs + [Field(a.name, a.value)]
    ensures a.InsertHeader? ==> Edited(hs, [a]) == Inserted(hs, a.index, Field(a.name, a.value))
    ensures a.ChangeHeader? ==> Edited(hs, [a]) == Changed(hs, a.index, a.name, a.value)
    ensures !a.AddHeader? && !a.InsertHeader? && !a.ChangeHeader? ==> Edited(hs, [a]) == hs
  {
    hide Changed, Inserted;
    assert [a][..0] == [] && Edited(hs, []) == hs;
  }

  predicate HeaderEdit(acts: seq<Action>) {
    exists a | a in acts :: a.EditsHeaders()
  }

  predicate Rewrites(acts: seq<Action>) {
    HeaderEdit(acts) || Replacement(acts).Some?
  }

  // ---------- Two ways to rewrite ----------

  /** What a filter is shown: the parsed headers and the rest of the message. */
  function View(x: string): Msg {
    var b := HeaderBlock(x);
    if b.terminated then Msg(Parse(b.text).headers, x[|b.text|..]) else Msg([], x)
  }

  /** The headers of the message where the block ends within the bound, and what
      comes after the block. */
  lemma ViewIs(x: string)
    ensures var b := HeaderBlock(x);
            if b.terminated then View(x).headers == Parse(x).headers && b.text + View(x).body == x
            else View(x) == Msg([], x)
  {
    if HeaderBlock(x).terminated {
      PrefixDecides(x);
    }
    hide Parse, HeaderBlock;
  }

  ghost function Rebuilt(m: Msg, acts: seq<Action>): string {
    Print(Msg(Edited(m.headers, acts), if Replacement(acts).Some? then Replacement(acts).value else m.body))
  }

  /** The relay's rewrite: from what the filter was shown. */
  ghost function Streamed(x: string, acts: seq<Action>): string {
    if Rewrites(acts) then Rebuilt(View(x), acts) else x
  }

  /** The reference rewrite: from the whole message, parsed. */
  ghost function InMemory(x: string, acts: seq<Action>): string {
    if Rewrites(acts) then Rebuilt(Parse(x), acts) else x
  }

  /** Without a header action or a replacement the message stays as it is, byte
      for byte; with one it is the headers edited, a blank line and the body. */
  lemma StreamedIs(x: string, acts: seq<Action>)
    ensures (forall a | a in acts :: !a.AddHeader? && !a.InsertHeader? && !a.ChangeHeader? && !a.ReplaceBody?) ==>
              Streamed(x, acts) == x
    ensures (exists a | a in acts :: a.AddHeader? || a.InsertHeader? || a.ChangeHeader? || a.ReplaceBody?) ==>
              Streamed(x, acts) == PrintFields(Edited(View(x).headers, acts)) + "\r\n"
                                   + if Replacement(acts).Some? then Replacement(acts).value else View(x).body
  {
    hide Edited, Replacement, View, PrintFields;
    ReplacementWhen(acts);
  }

  lemma {:induction false} ReplacementWhen(acts: seq<Action>)
    ensures Replacement(acts).Some? <==> exists a | a in acts :: a.ReplaceBody?
  {
    if acts != [] {
      var n := |acts| - 1;
      ReplacementWhen(acts[..n]);
      assert acts == acts[..n] + [acts[n]] && acts[n] in acts;
    }
  }

  /** Nothing of a terminated block is left over as body; an unterminated message
      does not start like a header block. */
  predicate Faithful(x: string) {
    var b := HeaderBlock(x);
    if b.terminated then Parse(b.text).body == []
    else x == [] || (Chomp(FirstLine(x)) != [] && ':' !in Chomp(FirstLine(x)))
  }

  /** The filter is shown the whole message exactly under that condition. */
  lemma ViewIsParse(x: string)
    ensures View(x) == Parse(x) <==> Faithful(x)
  {
    var b := HeaderBlock(x);
    if b.terminated {
      PrefixDecides(x);
      hide Parse, HeaderBlock;
      var left, rest := Parse(b.text).body, x[|b.text|..];
      assert Parse(x).body == left + rest;
      if left + rest == rest {
        assert |left| == 0;
      }
    } else if x != [] {
      hide HeaderBlock;
      var line := FirstLine(x);
      var t := Chomp(line);
      var colon := IndexOf(t, ':');
      if t == [] {
        assert |Parse(x).body| < |x|;
      } else if colon >= 0 {
        assert [] + [LineField(t, colon)] == [LineField(t, colon)];
        HeadersOnlyGrow([LineField(t, colon)], x[|line|..]);
      }
    }
  }

  lemma {:induction false} HeadersOnlyGrow(hs: seq<Field>, x: string)
    ensures |ParseFrom(hs, x).headers| >= |hs|
    decreases |x|
  {
    if x != [] {
      var line := FirstLine(x);
      var t := Chomp(line);
      if t != [] {
        if Continues(hs, line) {
          HeadersOnlyGrow(Fold(hs, t), x[|line|..]);
        } else if IndexOf(t, ':') >= 0 {
          HeadersOnlyGrow(hs + [LineField(t, IndexOf(t, ':'))], x[|line|..]);
        }
      }
    }
  }

  /** With a replacement body, or with nothing left over, a terminated block is
      enough for every edit a filter can ask for. */
  lemma StreamedIsInMemory(x: string, acts: seq<Action>)
    requires HeaderBlock(x).terminated
    requires Replacement(acts).Some? || Parse(HeaderBlock(x).text).body == []
    ensures Streamed(x, acts) == InMemory(x, acts)
  {
    PrefixDecides(x);
    hide Parse, HeaderBlock, Rewrites, Print;
  }

  // A header that tells the two rewrites apart.
  lemma Telltale(x: string) returns (acts: seq<Action>)
    requires View(x) != Parse(x)
    ensures Streamed(x, acts) != InMemory(x, acts)
  {
    var v, p := View(x), Parse(x);
    var c: char := if p.headers != [] && PrintFields(p.headers)[..1] == "A" then 'B' else 'A';
    var f := Field([c], []);
    acts := [AddHeader([c], [])];
    AddOnly([c], []);
    hide View, Parse, Replacement, Edited, Rewrites;
    if v.headers == p.headers {
      SameHeadsDifferentBodies(p.headers + [f], v.body, p.body);
    } else {
      assert v.headers == [] by { ViewHeaders(x); }
      FirstHeaderShows(p.headers, f, v.body, p.body);
    }
  }

  lemma AddOnly(name: string, value: string)
    ensures var acts := [AddHeader(name, value)];
            Rewrites(acts) && Replacement(acts).None?
            && forall hs :: Edited(hs, acts) == hs + [Field(name, value)]
  {
    var acts := [AddHeader(name, value)];
    assert acts[..0] == [];
    assert acts[0].EditsHeaders() && acts[0] in acts;
    assert forall hs :: Edited(hs, acts[..0]) == hs;
  }

  lemma ViewHeaders(x: string)
    ensures View(x).headers == [] || View(x).headers == Parse(x).headers
  {
    if HeaderBlock(x).terminated {
      PrefixDecides(x);
    }
  }

  lemma SameHeadsDifferentBodies(hs: seq<Field>, a: string, b: string)
    requires a != b
    ensures Print(Msg(hs, a)) != Print(Msg(hs, b))
  {
    Cancel(PrintHeaders(hs), a, b);
  }

  lemma {:induction false} PrintStart(hs: seq<Field>)
    requires hs != []
    ensures PrintField(hs[0]) <= PrintFields(hs)
  {
    if |hs| > 1 {
      PrintStart(hs[..|hs| - 1]);
    } else {
      assert hs[..0] == [];
      assert PrintFields([]) + PrintField(hs[0]) == PrintField(hs[0]);
    }
  }

  lemma FirstHeaderShows(hs: seq<Field>, f: Field, a: string, b: string)
    requires hs != [] && |f.name| == 1 && PrintFields(hs)[..1] != f.name
    ensures Print(Msg([] + [f], a)) != Print(Msg(hs + [f], b))
  {
    PrintStart(hs);
    PrintStart(hs + [f]);
    PrintStart([] + [f]);
    var p, q := Print(Msg([] + [f], a)), Print(Msg(hs + [f], b));
    PrintAppend(hs, f);
    assert q[..1] == PrintFields(hs)[..1];
    assert p[..1] == f.name;
  }

  /** Streaming is right for every filter exactly on the messages it shows
      whole. */
  lemma StreamingIsRightIff(x: string)
    ensures (forall acts :: Streamed(x, acts) == InMemory(x, acts)) <==> Faithful(x)
  {
    ViewIsParse(x);
    hide Faithful, View, Parse, Rewrites, Rebuilt;
    if View(x) != Parse(x) {
      var acts := Telltale(x);
      assert Streamed(x, acts) != InMemory(x, acts);
    }
  }

  lemma PrintedIsTerminated(m: Msg)
    requires m.headers != [] && |PrintHeaders(m.headers)| <= MAX_HEADER_BYTES
    ensures HeaderBlock(Print(m)).terminated
  {
    var hs, x := m.headers, Print(m);
    var p := PrintFields(hs);
    var head := x[..Min(|x|, MAX_HEADER_BYTES)];
    var last := PrintField(hs[|hs| - 1]);
    assert p[|p| - 2..] == last[|last| - 2..] == "\r\n";
    assert PrintHeaders(hs) <= head;
    assert head[|p| - 2..|p| + 2] == "\r\n\r\n";
    hide Print, PrintFields, PrintField;
    FindIsFirst(head, "\r\n\r\n", |p| - 2);
  }

  /** The next filter is shown the edited headers exactly when each of them can
      be parsed back: an edit with a stray line feed shows it something else. */
  lemma NextFilterSees(m: Msg)
    requires m.headers != [] && |PrintHeaders(m.headers)| <= MAX_HEADER_BYTES
    ensures View(Print(m)).headers == m.headers <==> HeadersOk(m.headers)
  {
    PrintedIsTerminated(m);
    var x := Print(m);
    PrefixDecides(x);
    PrintParse(m);
    ParseFromIsOk([], x);
    hide HeaderBlock, Print, HeadersOk, ParseFrom;
  }

  // ---------- The message in flight ----------

  class MailMessage {
    var from: string
    var to: seq<string>
    var body: Spool.Spool

    constructor (from: string, to: seq<string>, body: Spool.Spool)
      ensures this.from == from && this.to == to && this.body == body
    {
      this.from, this.to, this.body := from, to, body;
    }

    ghost predicate Valid()
      reads this, body, body.file
    {
      body.Valid()
    }

    ghost function Value(): Mail
      reads this, body, body.file
    {
      Mail(from, to, body.Contents())
    }
  }

  // File-system failures met while a message is rewritten.
  datatype Faults = Faults(headers: seq<Spool.Fault>, body: seq<Spool.Fault>, chunks: seq<Spool.Fault>)

  predicate AllHealthy(fs: seq<Spool.Fault>) {
    forall f | f in fs :: f.Healthy?
  }

  predicate Healthy(f: Faults) {
    AllHealthy(f.headers) && AllHealthy(f.body) && AllHealthy(f.chunks)
  }

  function FaultAt(fs: seq<Spool.Fault>, i: nat): Spool.Fault {
    if i < |fs| then fs[i] else Spool.Healthy
  }

  method WriteHeaders(hs: seq<Field>, out: Spool.Spool, faults: seq<Spool.Fault>) returns (ok: bool)
    requires out.Valid() && out.Writable() && out.Contents() == []
    modifies out.Repr()
    ensures out.Valid() && out.Writable() && fresh(out.Repr() - old(out.Repr()))
    ensures ok ==> out.Contents() == PrintHeaders(hs)
    ensures AllHealthy(faults) ==> ok
  {
    hide PrintField;
    var written: nat;
    for i := 0 to |hs|
      invariant out.Valid() && out.Writable() && fresh(out.Repr() - old(out.Repr()))
      invariant out.Contents() == PrintFields(hs[..i])
    {
      assert hs[..i + 1][..i] == hs[..i];
      var line := PrintField(hs[i]);
      written, ok := out.Write(line, FaultAt(faults, i));
      if !ok {
        return;
      }
      assert line[..written] == line;
    }
    assert hs[..|hs|] == hs;
    written, ok := out.Write("\r\n", FaultAt(faults, |hs|));
    assert ok ==> "\r\n"[..written] == "\r\n";
  }

  // Headers, then a body copied in chunks, into an empty spool.
  method Assemble(headers: seq<Field>, source: string, out: Spool.Spool, faults: Faults) returns (ok: bool)
    requires out.Valid() && out.Writable() && out.Contents() == []
    modifies out.Repr()
    ensures out.Valid() && fresh(out.Repr() - old(out.Repr()))
    ensures ok ==> out.Contents() == PrintHeaders(headers) + source
    ensures Healthy(faults) ==> ok
  {
    hide PrintHeaders;
    ok := WriteHeaders(headers, out, faults.headers);
    if !ok {
      return;
    }
    var copied;
    copied, ok := out.Copy(source, faults.body);
    assert ok ==> source[..copied] == source;
  }

  /** Rebuilds the message in a new spool; the old one stays in place unless
      everything was written. */
  method RewriteBody(msg: MailMessage, headers: seq<Field>, headerLen: nat, replacement: Spool.Spool?, faults: Faults)
    returns (ok: bool)
    requires msg.Valid() && headerLen <= |msg.body.Contents()|
    requires replacement != null ==> replacement.Valid() && replacement.Repr() !! msg.body.Repr()
    modifies msg`body, msg.body.Repr(), if replacement == null then {} else replacement.Repr()
    ensures msg.Valid() && fresh(msg.body.Repr() - old(msg.body.Repr())) && (!ok ==> msg.body == old(msg.body))
    ensures !ok ==> msg.body.Contents() == old(msg.body.Contents())
    ensures ok ==> msg.body.Contents() == PrintHeaders(headers)
                     + if replacement != null then old(replacement.Contents())
                       else old(msg.body.Contents())[headerLen..]
    ensures Healthy(faults) ==> ok
  {
    hide PrintHeaders, Healthy;
    var source: string;
    if replacement != null {
      source := replacement.ReadAt(0);
      assert source == old(replacement.Contents());
    } else {
      source := msg.body.ReadAt(headerLen);
    }
    var out := msg.body.Sibling();
    ok := Assemble(headers, source, out, faults);
    if ok {
      msg.body := out;
    }
  }

  datatype Verdict = Accept | Reject(code: nat) | Broken

  lemma RewritesAppend(acts: seq<Action>, a: Action)
    ensures HeaderEdit(acts + [a]) <==> HeaderEdit(acts) || a.EditsHeaders()
  {
    assert forall x :: x in acts + [a] <==> x in acts || x == a;
  }

  // One header action on the parsed message.
  method EditHeaders(parsed: ParsedMessage, act: Action, ghost hs: seq<Field>, ghost before: seq<Action>)
    requires parsed.headers == Edited(hs, before)
    modifies parsed`headers
    ensures parsed.headers == Edited(hs, before + [act])
  {
    match act {
      case AddHeader(n, v) => parsed.AddHeader(n, v);
      case InsertHeader(i, n, v) => parsed.InsertHeader(i, n, v);
      case ChangeHeader(i, n, v) => parsed.ChangeHeader(i, n, v);
      case _ =>
    }
    assert (before + [act])[..|before|] == before;
  }

  // One chunk of a replacement body, in a spool made for the first of them.
  method Replace(spool: Spool.Spool?, model: Spool.Spool, chunk: string, fault: Spool.Fault)
    returns (out: Spool.Spool, ok: bool)
    requires spool != null ==> spool.Valid() && spool.Writable()
    modifies if spool == null then {} else spool.Repr()
    ensures out.Valid() && out.Writable()
    ensures if spool == null then fresh(out.Repr()) else out == spool && fresh(out.Repr() - old(spool.Repr()))
    ensures ok ==> out.Contents() == (if spool == null then [] else old(spool.Contents())) + chunk
    ensures fault.Healthy? ==> ok
  {
    if spool == null {
      out := model.Sibling();
    } else {
      out := spool;
    }
    var written;
    written, ok := out.Write(chunk, fault);
    assert ok ==> chunk[..written] == chunk;
  }

  // Envelope edits.
  method EditEnvelope(msg: MailMessage, act: Action, ghost f: string, ghost t: seq<string>, ghost before: seq<Action>)
    requires msg.from == NewFrom(f, before) && msg.to == NewTo(t, before)
    modifies msg`from, msg`to
    ensures msg.from == NewFrom(f, before + [act]) && msg.to == NewTo(t, before + [act])
  {
    hide Unbracket, Without;
    match act {
      case ChangeFrom(f) => msg.from := Unbracket(f);
      case AddRcpt(r) => msg.to := msg.to + [Unbracket(r)];
      case DelRcpt(r) =>
        var to := RemoveRecipient(msg.to, Unbracket(r));
        msg.to := to;
      case _ =>
    }
    assert (before + [act])[..|before|] == before;
  }

  ghost predicate Holds(replacement: Spool.Spool?, r: Option<string>)
    reads replacement, if replacement == null then {} else replacement.Repr()
  {
    if r.None? then replacement == null
    else replacement != null && replacement.Valid() && replacement.Writable() && replacement.Contents() == r.value
  }

  lemma ReplacementAppend(acts: seq<Action>, a: Action)
    ensures Replacement(acts + [a]) == if a.ReplaceBody?
              then Some((if Replacement(acts).Some? then Replacement(acts).value else []) + a.chunk)
              else Replacement(acts)
  {
    assert (acts + [a])[..|acts|] == acts;
  }

  /** Folds the actions into the parsed headers, the envelope and a replacement
      body, stopping at a quarantine or at a failed write. */
  method FoldActions(msg: MailMessage, parsed: ParsedMessage, acts: seq<Action>, faults: seq<Spool.Fault>)
    returns (v: Verdict, changed: bool, replacement: Spool.Spool?)
    requires msg.Valid() && parsed as object !in msg.body.Repr() + {msg} && msg as object !in msg.body.Repr()
    modifies msg`from, msg`to, parsed`headers
    ensures msg.Valid() && msg.body.Contents() == old(msg.body.Contents())
    ensures replacement != null ==> fresh(replacement) && fresh(replacement.Repr())
    ensures v.Accept? ==> Quarantine !in acts && Holds(replacement, Replacement(acts))
    ensures v.Accept? ==> changed == HeaderEdit(acts) && parsed.headers == Edited(old(parsed.headers), acts)
    ensures v.Accept? ==> msg.from == NewFrom(old(msg.from), acts) && msg.to == NewTo(old(msg.to), acts)
    ensures v.Reject? ==> v == Reject(554) && Quarantine in acts
    ensures AllHealthy(faults) ==> !v.Broken?
  {
    hide Edited, Replacement, NewFrom, NewTo, HeaderEdit, Spool.Spool.Valid, Spool.Spool.Contents, Spool.Spool.Writable;
    changed, replacement := false, null;
    NothingYet(parsed.headers, msg.from, msg.to);
    assert acts[..0] == [];
    for i := 0 to |acts|
      invariant msg.Valid() && msg.body.Contents() == old(msg.body.Contents())
      invariant replacement != null ==> fresh(replacement) && fresh(replacement.Repr())
      invariant Quarantine !in acts[..i] && Holds(replacement, Replacement(acts[..i]))
      invariant changed == HeaderEdit(acts[..i]) && parsed.headers == Edited(old(parsed.headers), acts[..i])
      invariant msg.from == NewFrom(old(msg.from), acts[..i]) && msg.to == NewTo(old(msg.to), acts[..i])
    {
      var act := acts[i];
      assert acts[..i + 1] == acts[..i] + [act];
      RewritesAppend(acts[..i], act);
      ReplacementAppend(acts[..i], act);
      if act.Quarantine? {
        return Reject(554), changed, replacement;
      }
      EditHeaders(parsed, act, old(parsed.headers), acts[..i]);
      changed := changed || act.EditsHeaders();
      EditEnvelope(msg, act, old(msg.from), old(msg.to), acts[..i]);
      if act.ReplaceBody? {
        var ok;
        replacement, ok := Replace(replacement, msg.body, act.chunk, FaultAt(faults, i));
        if !ok {
          return Broken, changed, replacement;
        }
      }
    }
    assert acts[..|acts|] == acts;
    v := Accept;
  }

  lemma NothingYet(hs: seq<Field>, from: string, to: seq<string>)
    ensures Edited(hs, []) == hs && NewFrom(from, []) == from && NewTo(to, []) == to
    ensures Replacement([]).None? && !HeaderEdit([])
  {
  }

  /** The message after a filter's actions, as a value. */
  ghost function Applied(m: Mail, acts: seq<Action>): Mail {
    Mail(NewFrom(m.from, acts), NewTo(m.to, acts), Streamed(m.body, acts))
  }

  predicate Deliverable(m: Mail, acts: seq<Action>) {
    Quarantine !in acts && NewTo(m.to, acts) != []
  }

  method ApplyModifications(msg: MailMessage, parsed: ParsedMessage, headerLen: nat, acts: seq<Action>, faults: Faults)
    returns (v: Verdict)
    requires msg.Valid() && parsed as object !in msg.body.Repr() + {msg} && msg as object !in msg.body.Repr()
    requires headerLen <= |msg.body.Contents()|
    requires View(msg.body.Contents()) == Msg(parsed.headers, msg.body.Contents()[headerLen..])
    modifies msg, parsed, msg.body.Repr()
    ensures msg.Valid() && fresh(msg.body.Repr() - old(msg.body.Repr()))
    ensures v.Accept? ==> Deliverable(old(msg.Value()), acts) && msg.Value() == Applied(old(msg.Value()), acts)
    ensures Healthy(faults) ==> (v.Accept? <==> Deliverable(old(msg.Value()), acts))
    ensures Healthy(faults) ==> !v.Broken?
    ensures v.Reject? ==> v == Reject(554) && !Deliverable(old(msg.Value()), acts)
  {
    hide View, Edited, Replacement, NewFrom, NewTo, HeaderEdit, PrintHeaders;
    ghost var before := msg.body.Contents();
    var changed, replacement;
    v, changed, replacement := FoldActions(msg, parsed, acts, faults.chunks);
    if !v.Accept? {
      return;
    }
    if changed || replacement != null {
      var ok := RewriteBody(msg, parsed.headers, headerLen, replacement, faults);
      if !ok {
        return Broken;
      }
      assert msg.body.Contents() == Streamed(before, acts);
    }
    if msg.to == [] {
      return Reject(554);
    }
  }

  // ---------- The chain ----------

  /** How a filter's session ends: unreachable or misbehaving, with a verdict of
      its own, or with the actions it asks for. */
  datatype Reply = Unreachable | Decline(code: nat) | Drop | Actions(acts: seq<Action>)
  datatype Filter = Filter(failOpen: bool, reply: Reply, faults: Faults)

  /** A filter as it is configured, and as it and the disk behave for one
      message. */
  datatype FilterConfig = FilterConfig(address: string, failOpen: bool)
  datatype Behaviour = Behaviour(reply: Reply, faults: Faults)

  /** The configured filters as one message meets them. */
  function Met(configs: seq<FilterConfig>, behave: nat -> Behaviour): (filters: seq<Filter>)
    ensures |filters| == |configs|
    ensures forall i :: 0 <= i < |configs| ==>
              filters[i].failOpen == configs[i].failOpen && filters[i].reply == behave(i).reply
              && filters[i].faults == behave(i).faults
  {
    seq(|configs|, i requires 0 <= i < |configs| => Filter(configs[i].failOpen, behave(i).reply, behave(i).faults))
  }

  datatype Result = Pass | Refused(code: nat) | Discarded

  /** Its failures cannot let a message through: it is not exempt, or has none. */
  predicate FailsClosed(f: Filter) {
    !f.failOpen || Healthy(f.faults)
  }

  function DeclineCode(code: nat): nat {
    if code < 400 then 550 else code
  }

  /** The chain as a function on messages, one filter after the other. */
  ghost function Chain(m: Mail, filters: seq<Filter>): (Mail, Result)
    decreases |filters|
  {
    if filters == [] then (m, Pass)
    else
      var f, rest := filters[0], filters[1..];
      match f.reply
      case Unreachable => if f.failOpen then Chain(m, rest) else (m, Refused(451))
      case Decline(code) => (m, Refused(DeclineCode(code)))
      case Drop => (m, Discarded)
      case Actions(acts) => if Deliverable(m, acts) then Chain(Applied(m, acts), rest) else (m, Refused(554))
  }

  /** `ms` is a message on its way through the filters, as each of them left it:
      none declines or drops it, one that cannot be reached is exempt, and the
      actions of the others quarantine nothing and leave a recipient. */
  ghost predicate Passage(m: Mail, filters: seq<Filter>, ms: seq<Mail>) {
    && |ms| == |filters| + 1 && ms[0] == m
    && forall i :: 0 <= i < |filters| ==> Leg(filters[i], ms[i], ms[i + 1])
  }

  ghost predicate Leg(f: Filter, m: Mail, n: Mail) {
    match f.reply
    case Unreachable => f.failOpen && n == m
    case Decline(_) => false
    case Drop => false
    case Actions(acts) =>
      && Quarantine !in acts && n.to != []
      && n.from == NewFrom(m.from, acts) && n.to == NewTo(m.to, acts) && n.body == Streamed(m.body, acts)
  }

  /** The chain lets a message through exactly by such a passage. */
  lemma {:induction false} ChainIs(m: Mail, filters: seq<Filter>, out: Mail)
    ensures Chain(m, filters) == (out, Pass) <==> exists ms :: Passage(m, filters, ms) && ms[|filters|] == out
    decreases |filters|
  {
    hide NewTo, NewFrom, Streamed;
    if filters == [] {
      assert Passage(m, filters, [m]);
    } else {
      var f, rest := filters[0], filters[1..];
      if Chain(m, filters) == (out, Pass) {
        var n := if f.reply.Actions? then Applied(m, f.reply.acts) else m;
        ChainIs(n, rest, out);
        var ms :| Passage(n, rest, ms) && ms[|rest|] == out;
        PassageLonger(m, filters, n, ms);
      }
      if ms :| Passage(m, filters, ms) && ms[|filters|] == out {
        assert Leg(filters[0], ms[0], ms[0 + 1]);
        PassageShorter(m, filters, ms);
        ChainIs(ms[1], rest, out);
        assert f.reply.Actions? ==> ms[1] == Applied(m, f.reply.acts);
      }
    }
  }

  lemma ChainOfNone(m: Mail)
    ensures Chain(m, []) == (m, Pass)
  {
  }

  lemma LegLets(f: Filter, m: Mail, n: Mail)
    requires Leg(f, m, n)
    ensures f.reply.Actions? || (f.reply.Unreachable? && f.failOpen)
  {
  }

  lemma PassageLonger(m: Mail, filters: seq<Filter>, n: Mail, ms: seq<Mail>)
    requires filters != [] && Leg(filters[0], m, n) && Passage(n, filters[1..], ms)
    ensures Passage(m, filters, [m] + ms) && ([m] + ms)[|filters|] == ms[|filters| - 1]
  {
    hide Leg;
    var all := [m] + ms;
    forall i | 0 <= i < |filters| ensures Leg(filters[i], all[i], all[i + 1]) {
      if i > 0 {
        assert Leg(filters[1..][i - 1], ms[i - 1], ms[i - 1 + 1]);
      }
    }
  }

  lemma PassageShorter(m: Mail, filters: seq<Filter>, ms: seq<Mail>)
    requires filters != [] && Passage(m, filters, ms)
    ensures Passage(ms[1], filters[1..], ms[1..]) && ms[1..][|filters| - 1] == ms[|filters|]
  {
    hide Leg;
    forall i | 0 <= i < |filters| - 1 ensures Leg(filters[1..][i], ms[1..][i], ms[1..][i + 1]) {
      assert Leg(filters[i + 1], ms[i + 1], ms[i + 1 + 1]);
    }
  }

  /** A message some filter refuses goes no further: with the filter's own code
      when it has one that is an error, as a failure when it cannot be reached,
      and nowhere when it is to be dropped. */
  lemma {:induction false} ChainStops(m: Mail, filters: seq<Filter>, i: nat)
    requires i < |filters| && Chain(m, filters[..i]).1 == Pass
    ensures var left, r := Chain(m, filters[..i]).0, Chain(m, filters).1;
            match filters[i].reply
            case Unreachable => filters[i].failOpen || r == Refused(451)
            case Decline(code) => r == Refused(if code >= 400 then code else 550)
            case Drop => r == Discarded
            case Actions(acts) => Quarantine in acts || NewTo(left.to, acts) == [] ==> r == Refused(554)
    decreases |filters|
  {
    hide NewTo, NewFrom, Streamed;
    if i > 0 {
      var f := filters[0];
      assert filters[..i][0] == f && filters[..i][1..] == filters[1..][..i - 1];
      ChainStops(if f.reply.Actions? then Applied(m, f.reply.acts) else m, filters[1..], i - 1);
    }
  }

  method RunOne(msg: MailMessage, acts: seq<Action>, faults: Faults) returns (v: Verdict)
    requires msg.Valid()
    modifies msg, msg.body.Repr()
    ensures msg.Valid() && fresh(msg.body.Repr() - old(msg.body.Repr()))
    ensures v.Accept? ==> Deliverable(old(msg.Value()), acts) && msg.Value() == Applied(old(msg.Value()), acts)
    ensures Healthy(faults) ==> (v.Accept? <==> Deliverable(old(msg.Value()), acts))
    ensures Healthy(faults) ==> !v.Broken?
    ensures v.Reject? ==> v == Reject(554) && !Deliverable(old(msg.Value()), acts)
  {
    hide Parse, HeaderBlock, Deliverable, Applied, Healthy;
    ghost var x := msg.body.Contents();
    var b := msg.body.HeaderBlock();
    var m := Msg([], []);
    var headerLen := 0;
    if b.terminated {
      m := ParseMessage(b.text);
      headerLen := |b.text|;
    }
    var parsed := new ParsedMessage(m);
    assert View(x) == Msg(m.headers, x[headerLen..]);
    hide View;
    v := ApplyModifications(msg, parsed, headerLen, acts, faults);
  }

  /** The chain stops at the first filter that refuses, discards or fails
      closed, and otherwise hands each filter what the previous one left. Where
      filters fail closed, no fault lets through a message that is not filtered
      in full. */
  method Run(msg: MailMessage, filters: seq<Filter>) returns (r: Result)
    requires msg.Valid()
    modifies msg, msg.body.Repr()
    ensures msg.Valid() && fresh(msg.body.Repr() - old(msg.body.Repr()))
    ensures (forall f | f in filters :: Healthy(f.faults)) ==>
              var (m, result) := Chain(old(msg.Value()), filters);
              r == result && (r == Pass ==> msg.Value() == m)
    ensures (forall f | f in filters :: FailsClosed(f)) && r == Pass ==>
              Chain(old(msg.Value()), filters) == (msg.Value(), Pass)
    ensures (forall f | f in filters :: FailsClosed(f)) && r != Pass ==>
              r == Refused(451) || Chain(old(msg.Value()), filters).1 == r
    ensures r == Pass ==> forall f | f in filters :: f.reply.Actions? || (f.reply.Unreachable? && f.failOpen)
  {
    hide Healthy, Deliverable, Applied;
    ghost var start := msg.Value();
    ghost var closed := forall f | f in filters :: FailsClosed(f);
    assert (forall f | f in filters :: Healthy(f.faults)) ==> closed;
    for i := 0 to |filters|
      invariant msg.Valid() && fresh(msg.body.Repr() - old(msg.body.Repr()))
      invariant closed ==> Chain(start, filters) == Chain(msg.Value(), filters[i..])
      invariant forall k :: 0 <= k < i ==>
                  filters[k].reply.Actions? || (filters[k].reply.Unreachable? && filters[k].failOpen)
    {
      var f := filters[i];
      assert filters[i..][1..] == filters[i + 1..];
      assert closed ==> FailsClosed(f);
      match f.reply {
        case Unreachable =>
          if !f.failOpen {
            return Refused(451);
          }
        case Decline(code) =>
          return Refused(DeclineCode(code));
        case Drop =>
          return Discarded;
        case Actions(acts) =>
          var v := RunOne(msg, acts, f.faults);
          match v {
            case Accept =>
            case Reject(code) => return Refused(code);
            case Broken =>
              if !f.failOpen {
                return Refused(451);
              }
          }
      }
    }
    return Pass;
  }

  /** What became of a message: no filter to meet, the message they left, or a
      stop. */
  datatype Filtered = NoFilters | Left(mail: Mail) | Stopped

  /** What the filters are said to have done is what they did to the message: the
      whole chain where nothing breaks, and where filters fail closed a message
      left is one filtered in full. */
  ghost predicate Yields(mail: Mail, filters: seq<Filter>, filtered: Filtered) {
    var (m, r) := Chain(mail, filters);
    && (filters == [] <==> filtered == NoFilters)
    && ((forall f | f in filters :: Healthy(f.faults)) && filters != [] ==>
          filtered == if r == Pass then Left(m) else Stopped)
    && ((forall f | f in filters :: FailsClosed(f)) && filtered.Left? ==> r == Pass && filtered.mail == m)
    && (filtered.Left? ==> forall f | f in filters :: f.reply.Actions? || (f.reply.Unreachable? && f.failOpen))
  }
}
