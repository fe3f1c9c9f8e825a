/** Splitting a message into headers and body, and printing it back.

    Models internal/gateway/message.go, and the bounded header prefix of
    internal/gateway/spool.go.
 */
module Message {
  import opened Text

  datatype Field = Field(name: string, value: string)
  datatype Msg = Msg(headers: seq<Field>, body: string)

  // ---------- Parsing ----------

  /** The first line, with its line feed when it has one. */
  function FirstLine(x: string): (l: string)
    requires x != []
    ensures l != [] && l <= x
    ensures forall i :: 0 <= i < |l| - 1 ==> l[i] != '\n'
    ensures l[|l| - 1] == '\n' || l == x
  {
    var i := IndexOf(x, '\n');
    if i < 0 then x else x[..i + 1]
  }

  function Chomp(line: string): (t: string)
    ensures t <= line
  {
    TrimRight(line, CRLF)
  }

  /** A header line; `colon` is the position of the line's first colon. */
  function LineField(t: string, colon: nat): Field
    requires colon < |t|
  {
    var value := t[colon + 1..];
    Field(t[..colon], if value != [] && value[0] == ' ' then value[1..] else value)
  }

  function Fold(hs: seq<Field>, t: string): seq<Field>
    requires hs != []
  {
    var last := hs[|hs| - 1];
    hs[..|hs| - 1] + [Field(last.name, last.value + "\r\n" + t)]
  }

  predicate Continues(hs: seq<Field>, line: string)
    requires line != []
  {
    hs != [] && line[0] in WSP
  }

  /** What parsing `x` yields once `hs` has been collected. */
  function ParseFrom(hs: seq<Field>, x: string): Msg
    decreases |x|
  {
    if x == [] then Msg(hs, [])
    else
      var line := FirstLine(x);
      var t := Chomp(line);
      if t == [] then Msg(hs, x[|line|..])
      else if Continues(hs, line) then ParseFrom(Fold(hs, t), x[|line|..])
      else
        var colon := IndexOf(t, ':');
        if colon < 0 then Msg(hs, x) else ParseFrom(hs + [LineField(t, colon)], x[|line|..])
  }

  function Parse(x: string): Msg {
    ParseFrom([], x)
  }

  method ParseMessage(data: string) returns (m: Msg)
    ensures m == Parse(data)
  {
    var hs: seq<Field> := [];
    var rest := data;
    while rest != []
      invariant Parse(data) == ParseFrom(hs, rest)
      decreases |rest|
    {
      var line := FirstLine(rest);
      var t := Chomp(line);
      if t == [] {
        return Msg(hs, rest[|line|..]);
      }
      if Continues(hs, line) {
        hs := Fold(hs, t);
      } else {
        var colon := IndexOf(t, ':');
        if colon < 0 {
          return Msg(hs, rest);
        }
        hs := hs + [LineField(t, colon)];
      }
      rest := rest[|line|..];
    }
    m := Msg(hs, []);
  }

  // ---------- Printing ----------

  function PrintField(f: Field): string {
    f.name + ": " + f.value + "\r\n"
  }

  function PrintFields(hs: seq<Field>): string {
    if hs == [] then [] else PrintFields(hs[..|hs| - 1]) + PrintField(hs[|hs| - 1])
  }

  /** The header block with the blank line that ends it. */
  function PrintHeaders(hs: seq<Field>): string {
    PrintFields(hs) + "\r\n"
  }

  function Print(m: Msg): string {
    PrintHeaders(m.headers) + m.body
  }

  method Bytes(m: Msg) returns (out: string)
    ensures out == Print(m)
  {
    out := [];
    for i := 0 to |m.headers|
      invariant out == PrintFields(m.headers[..i])
    {
      assert m.headers[..i + 1][..i] == m.headers[..i];
      out := out + PrintField(m.headers[i]);
    }
    assert m.headers[..|m.headers|] == m.headers;
    out := out + "\r\n" + m.body;
    assert out == Print(m);
  }

  // ---------- The messages that survive printing ----------

  predicate SegmentOk(t: string) {
    '\n' !in t && (t != [] ==> t[|t| - 1] != '\r')
  }

  /** Lines separated by CRLF, each continuation starting with white space and
      none ending in a carriage return. */
  predicate ValueOk(v: string)
    decreases |v|
  {
    var i := IndexOf(v, '\n');
    if i < 0 then SegmentOk(v)
    else i >= 1 && v[i - 1] == '\r' && SegmentOk(v[..i - 1])
         && i + 1 < |v| && v[i + 1] in WSP && ValueOk(v[i + 1..])
  }

  predicate NameOk(n: string, first: bool) {
    ':' !in n && '\n' !in n && (n != [] && !first ==> n[0] !in WSP)
  }

  predicate HeadersOk(hs: seq<Field>) {
    forall i :: 0 <= i < |hs| ==> NameOk(hs[i].name, i == 0) && ValueOk(hs[i].value)
  }

  lemma LineTextIsSegment(line: string)
    requires forall i :: 0 <= i < |line| - 1 ==> line[i] != '\n'
    ensures SegmentOk(Chomp(line))
  {
  }

  lemma {:induction false} FoldKeepsValueOk(v: string, t: string)
    requires ValueOk(v) && SegmentOk(t) && t != [] && t[0] in WSP
    ensures ValueOk(v + "\r\n" + t)
    decreases |v|
  {
    hide IndexOf;
    var w := v + "\r\n" + t;
    var i := IndexOf(v, '\n');
    if i < 0 {
      IndexOfUnique(w, '\n', |v| + 1);
      assert w[..|v|] == v && w[|v| + 2..] == t;
      SegmentIsValue(t);
    } else {
      IndexOfUnique(w, '\n', i);
      assert w[..i - 1] == v[..i - 1];
      var u := v[i + 1..];
      assert w[i + 1..] == u + "\r\n" + t;
      FoldKeepsValueOk(u, t);
    }
  }

  lemma LineFieldParts(t: string)
    requires SegmentOk(t) && ':' in t
    ensures var f := LineField(t, IndexOf(t, ':'));
            && ':' !in f.name && '\n' !in f.name && (f.name != [] ==> f.name[0] == t[0]) && SegmentOk(f.value)
  {
    hide IndexOf;
    var f := LineField(t, IndexOf(t, ':'));
    assert forall i :: 0 <= i < |f.value| ==> f.value[i] == t[|t| - |f.value| + i];
  }

  lemma LineFieldOk(hs: seq<Field>, t: string)
    requires HeadersOk(hs) && SegmentOk(t) && ':' in t && (hs == [] || t[0] !in WSP)
    ensures HeadersOk(hs + [LineField(t, IndexOf(t, ':'))])
  {
    hide IndexOf, LineField, ValueOk, SegmentOk;
    var f := LineField(t, IndexOf(t, ':'));
    LineFieldParts(t);
    SegmentIsValue(f.value);
    assert forall i :: 0 <= i < |hs| ==> (hs + [f])[i] == hs[i];
  }

  lemma SegmentIsValue(t: string)
    requires SegmentOk(t)
    ensures ValueOk(t)
  {
  }

  lemma FoldOk(hs: seq<Field>, t: string)
    requires HeadersOk(hs) && hs != [] && SegmentOk(t) && t != [] && t[0] in WSP
    ensures HeadersOk(Fold(hs, t))
  {
    hide ValueOk;
    FoldKeepsValueOk(hs[|hs| - 1].value, t);
  }

  lemma {:induction false} ParseFromIsOk(hs: seq<Field>, x: string)
    requires HeadersOk(hs)
    ensures HeadersOk(ParseFrom(hs, x).headers)
    decreases |x|
  {
    hide HeadersOk, Fold, LineField, SegmentOk, IndexOf;
    if x != [] {
      var line := FirstLine(x);
      var t := Chomp(line);
      LineTextIsSegment(line);
      if t != [] {
        assert t[0] == line[0];
        if Continues(hs, line) {
          FoldOk(hs, t);
          ParseFromIsOk(Fold(hs, t), x[|line|..]);
        } else if IndexOf(t, ':') >= 0 {
          LineFieldOk(hs, t);
          ParseFromIsOk(hs + [LineField(t, IndexOf(t, ':'))], x[|line|..]);
        }
      }
    }
  }

  // ---------- Reading line by line ----------

  /** `e` ends a line that `rest` follows: carriage returns and a line feed, or
      the end of the text. */
  predicate Ends(e: string, rest: string) {
    && (forall i :: 0 <= i < |e| - 1 ==> e[i] == '\r')
    && (if e == [] then rest == [] else e[|e| - 1] == '\n' || (e[|e| - 1] == '\r' && rest == []))
  }

  lemma ChompEnding(t: string, e: string, rest: string)
    requires SegmentOk(t) && Ends(e, rest)
    ensures Chomp(t + e) == t
    decreases |e|
  {
    if e != [] {
      var d := e[..|e| - 1];
      assert (t + e)[..|t + e| - 1] == t + d;
      ChompEnding(t, d, []);
    } else {
      assert t + e == t;
    }
  }

  // A line is read as its text, whatever ends it.
  lemma ReadEnding(t: string, e: string, rest: string)
    requires SegmentOk(t) && Ends(e, rest) && t + e != []
    ensures FirstLine(t + e + rest) == t + e && Chomp(t + e) == t && (t + e + rest)[|t + e|..] == rest
  {
    ChompEnding(t, e, rest);
    var x := t + e + rest;
    hide Chomp;
    if e != [] && e[|e| - 1] == '\n' {
      assert x[|t + e| - 1] == '\n';
      assert forall k :: 0 <= k < |t + e| - 1 ==> x[k] == if k < |t| then t[k] else e[k - |t|];
      IndexOfUnique(x, '\n', |t + e| - 1);
    } else {
      assert x == t + e;
      assert forall k :: 0 <= k < |x| ==> x[k] == if k < |t| then t[k] else e[k - |t|];
    }
  }

  lemma ChompedTail(line: string, i: nat)
    requires forall k :: 0 <= k < |line| - 1 ==> line[k] != '\n'
    requires |Chomp(line)| <= i < |line|
    ensures line[i] in CRLF && (i < |line| - 1 ==> line[i] == '\r')
  {
  }

  /** Every text starts with a line. */
  lemma StartsWithLine(x: string) returns (t: string, e: string, rest: string)
    requires x != []
    ensures x == t + e + rest && t + e != [] && SegmentOk(t) && Ends(e, rest)
  {
    var line := FirstLine(x);
    t := Chomp(line);
    LineTextIsSegment(line);
    e, rest := line[|t|..], x[|line|..];
    hide FirstLine, Chomp, SegmentOk;
    assert line == t + e && x == line + rest;
    forall i | 0 <= i < |e| ensures e[i] in CRLF && (i < |e| - 1 ==> e[i] == '\r') {
      ChompedTail(line, |t| + i);
      assert e[i] == line[|t| + i];
    }
    if e == [] || e[|e| - 1] != '\n' {
      assert line == [] || line[|line| - 1] != '\n';
      assert rest == [];
    }
  }

  lemma FirstColon(name: string, v: string)
    requires ':' !in name
    ensures IndexOf(name + ":" + v, ':') == |name|
    ensures (name + ":" + v)[..|name|] == name && (name + ":" + v)[|name| + 1..] == v
  {
    IndexOfUnique(name + ":" + v, ':', |name|);
  }

  lemma HeaderText(name: string, v: string)
    requires '\n' !in name && SegmentOk(v)
    ensures SegmentOk(name + ":" + v)
  {
  }

  /** A line with a colon is a header: its name is what comes before the first
      colon, its value what comes after, less one space. */
  lemma ReadHeaderLine(hs: seq<Field>, name: string, v: string, e: string, rest: string)
    requires NameOk(name, hs == []) && SegmentOk(v) && Ends(e, rest)
    ensures v == [] || v[0] != ' ' ==>
              ParseFrom(hs, name + ":" + v + e + rest) == ParseFrom(hs + [Field(name, v)], rest)
    ensures ParseFrom(hs, name + ": " + v + e + rest) == ParseFrom(hs + [Field(name, v)], rest)
  {
    hide ParseFrom, NameOk, Ends;
    ReadHeader(hs, name, v, e, rest);
    ReadHeader(hs, name, " " + v, e, rest);
    assert name + ":" + (" " + v) == name + ": " + v;
    assert (" " + v)[1..] == v;
  }

  lemma ReadHeader(hs: seq<Field>, name: string, v: string, e: string, rest: string)
    requires NameOk(name, hs == []) && SegmentOk(v) && Ends(e, rest)
    ensures ParseFrom(hs, name + ":" + v + e + rest)
            == ParseFrom(hs + [Field(name, if v != [] && v[0] == ' ' then v[1..] else v)], rest)
  {
    var t := name + ":" + v;
    HeaderText(name, v);
    ReadEnding(t, e, rest);
    FirstColon(name, v);
    hide FirstLine, Chomp, IndexOf, SegmentOk, Ends;
    assert (t + e)[0] == t[0] == if name == [] then ':' else name[0];
  }

  /** A line that starts with white space continues the last header. */
  lemma ReadContinuation(hs: seq<Field>, t: string, e: string, rest: string)
    requires hs != [] && SegmentOk(t) && t != [] && t[0] in WSP && Ends(e, rest)
    ensures var last := hs[|hs| - 1];
            ParseFrom(hs, t + e + rest)
            == ParseFrom(hs[..|hs| - 1] + [Field(last.name, last.value + "\r\n" + t)], rest)
  {
    ReadEnding(t, e, rest);
    hide FirstLine, Chomp, SegmentOk, Ends;
    assert (t + e)[0] == t[0];
  }

  /** A blank line ends the headers, and so does the end of the text. */
  lemma ReadBlank(hs: seq<Field>, e: string, rest: string)
    requires Ends(e, rest)
    ensures ParseFrom(hs, e + rest) == Msg(hs, rest)
  {
    assert [] + e + rest == e + rest;
    if e != [] {
      ReadEnding([], e, rest);
      assert [] + e == e;
    }
  }

  /** Any other line without a colon is where the body starts. */
  lemma ReadColonless(hs: seq<Field>, t: string, e: string, rest: string)
    requires SegmentOk(t) && t != [] && Ends(e, rest) && ':' !in t && (hs == [] || t[0] !in WSP)
    ensures ParseFrom(hs, t + e + rest) == Msg(hs, t + e + rest)
  {
    ReadEnding(t, e, rest);
    hide FirstLine, Chomp, SegmentOk, Ends;
    assert (t + e)[0] == t[0];
  }

  // A line `t` that ends as printed lines end is read back as `t`.
  lemma ReadLine(t: string, rest: string)
    requires SegmentOk(t)
    ensures FirstLine(t + "\r\n" + rest) == t + "\r\n"
    ensures Chomp(t + "\r\n") == t
    ensures (t + "\r\n" + rest)[|t| + 2..] == rest
  {
    ReadEnding(t, "\r\n", rest);
  }

  lemma FoldedLine(hs: seq<Field>, t: string, rest: string)
    requires hs != [] && SegmentOk(t) && t != [] && t[0] in WSP
    ensures ParseFrom(hs, t + "\r\n" + rest) == ParseFrom(Fold(hs, t), rest)
  {
    ReadContinuation(hs, t, "\r\n", rest);
  }

  lemma FoldLast(hs: seq<Field>, f: Field, t: string)
    ensures Fold(hs + [f], t) == hs + [Field(f.name, f.value + "\r\n" + t)]
  {
  }

  // A folded value is its first line and a value that continues it.
  lemma FoldedValue(v: string)
    requires ValueOk(v) && '\n' in v
    ensures var i := IndexOf(v, '\n');
            && 1 <= i && i + 1 < |v| && v[i - 1] == '\r' && v == v[..i - 1] + "\r\n" + v[i + 1..]
            && SegmentOk(v[..i - 1]) && ValueOk(v[i + 1..]) && v[i + 1] in WSP
  {
    SplitLine(v, IndexOf(v, '\n'));
  }

  lemma UnfoldedValue(v: string)
    requires ValueOk(v) && '\n' !in v
    ensures SegmentOk(v)
  {
  }

  lemma Reassociate(a: string, t: string, w: string, rest: string)
    ensures (t + "\r\n" + w) + "\r\n" + rest == t + "\r\n" + (w + "\r\n" + rest)
    ensures (a + "\r\n" + t) + "\r\n" + w == a + "\r\n" + (t + "\r\n" + w)
  {
  }

  lemma {:induction false} ReadFolds(hs: seq<Field>, f: Field, v: string, rest: string)
    requires ValueOk(v) && v != [] && v[0] in WSP
    ensures ParseFrom(hs + [f], v + "\r\n" + rest)
         == ParseFrom(hs + [Field(f.name, f.value + "\r\n" + v)], rest)
    decreases |v|
  {
    hide ParseFrom, ValueOk, SegmentOk, IndexOf, Fold;
    if '\n' !in v {
      UnfoldedValue(v);
      FoldedLine(hs + [f], v, rest);
      FoldLast(hs, f, v);
    } else {
      FoldedValue(v);
      var i := IndexOf(v, '\n');
      var t, w := v[..i - 1], v[i + 1..];
      var g := Field(f.name, f.value + "\r\n" + t);
      Reassociate(f.value, t, w, rest);
      assert t != [];
      FoldedLine(hs + [f], t, w + "\r\n" + rest);
      FoldLast(hs, f, t);
      ReadFolds(hs, g, w, rest);
    }
  }

  lemma SplitLine(v: string, i: nat)
    requires 1 <= i < |v| && v[i - 1] == '\r' && v[i] == '\n'
    ensures v == v[..i - 1] + "\r\n" + v[i + 1..]
  {
  }

  lemma ReadField(hs: seq<Field>, f: Field, rest: string)
    requires NameOk(f.name, hs == []) && ValueOk(f.value)
    ensures ParseFrom(hs, PrintField(f) + rest) == ParseFrom(hs + [f], rest)
  {
    hide ParseFrom, ValueOk, SegmentOk, NameOk, IndexOf;
    var v := f.value;
    if '\n' !in v {
      UnfoldedValue(v);
      ReadHeaderLine(hs, f.name, v, "\r\n", rest);
    } else {
      FoldedValue(v);
      var i := IndexOf(v, '\n');
      var t, w := v[..i - 1], v[i + 1..];
      assert PrintField(f) + rest == f.name + ": " + t + "\r\n" + (w + "\r\n" + rest);
      ReadHeaderLine(hs, f.name, t, "\r\n", w + "\r\n" + rest);
      ReadFolds(hs, Field(f.name, t), w, rest);
    }
  }

  lemma {:induction false} ReadFields(hs: seq<Field>, k: nat, rest: string)
    requires HeadersOk(hs) && k <= |hs|
    ensures ParseFrom([], PrintFields(hs[..k]) + rest) == ParseFrom(hs[..k], rest)
  {
    hide ParseFrom, PrintField, ValueOk, NameOk;
    if k > 0 {
      var f := hs[k - 1];
      assert hs[..k][..k - 1] == hs[..k - 1];
      assert PrintFields(hs[..k]) + rest == PrintFields(hs[..k - 1]) + (PrintField(f) + rest);
      ReadFields(hs, k - 1, PrintField(f) + rest);
      ReadField(hs[..k - 1], f, rest);
      assert hs[..k - 1] + [f] == hs[..k];
    } else {
      assert PrintFields(hs[..0]) + rest == rest;
    }
  }

  /** Printing loses nothing exactly when every name and value could have been
      parsed: the others change what the reader sees. */
  lemma PrintParse(m: Msg)
    ensures Parse(Print(m)) == m <==> HeadersOk(m.headers)
  {
    hide ParseFrom, PrintFields, ValueOk, NameOk;
    if HeadersOk(m.headers) {
      var hs := m.headers;
      assert hs[..|hs|] == hs;
      var tail := "\r\n" + m.body;
      assert Print(m) == PrintFields(hs) + tail;
      ReadFields(hs, |hs|, tail);
      ReadBlank(hs, "\r\n", m.body);
    } else {
      ParseFromIsOk([], Print(m));
    }
  }

  /** Parsing stabilises after one print, on every input. */
  lemma ParsePrintParse(x: string)
    ensures Parse(Print(Parse(x))) == Parse(x)
  {
    ParseFromIsOk([], x);
    PrintParse(Parse(x));
  }

  // ---------- The inputs printed back unchanged ----------

  // One space follows the first colon.
  predicate Spaced(t: string)
    requires ':' in t
  {
    var c := IndexOf(t, ':');
    c + 1 < |t| && t[c + 1] == ' '
  }

  /** A header block in canonical form from its first line on: CRLF line ends,
      `Name: value` lines with continuations after the first, a blank line. */
  predicate Canonical(first: bool, x: string)
    decreases |x|
  {
    x != [] &&
    var line := FirstLine(x);
    var t := Chomp(line);
    line == t + "\r\n" &&
    (t == [] ||
     (((!first && t[0] in WSP) || (':' in t && Spaced(t)))
      && Canonical(false, x[|line|..])))
  }

  /** How one accepted line reappears when printed. */
  function Reprint(hs: seq<Field>, t: string): string
    requires hs != [] || ':' in t
    requires t != [] && ((hs != [] && t[0] in WSP) || ':' in t)
  {
    if hs != [] && t[0] in WSP then t + "\r\n"
    else PrintField(LineField(t, IndexOf(t, ':')))
  }

  lemma PrintFold(hs: seq<Field>, t: string)
    requires hs != []
    ensures PrintFields(Fold(hs, t)) == PrintFields(hs) + t + "\r\n"
  {
    var g := Fold(hs, t);
    assert g[..|g| - 1] == hs[..|hs| - 1];
  }

  lemma PrintAppend(hs: seq<Field>, f: Field)
    ensures PrintFields(hs + [f]) == PrintFields(hs) + PrintField(f)
  {
    assert (hs + [f])[..|hs|] == hs;
  }

  // Whatever follows, the output starts with what was already collected.
  lemma {:induction false} PrintGrows(hs: seq<Field>, x: string)
    ensures PrintFields(hs) <= Print(ParseFrom(hs, x))
    decreases |x|
  {
    if x != [] {
      var line := FirstLine(x);
      var t := Chomp(line);
      if t != [] {
        if Continues(hs, line) {
          PrintFold(hs, t);
          PrintGrows(Fold(hs, t), x[|line|..]);
        } else if IndexOf(t, ':') >= 0 {
          var f := LineField(t, IndexOf(t, ':'));
          PrintAppend(hs, f);
          PrintGrows(hs + [f], x[|line|..]);
        }
      }
    }
  }

  lemma ReprintHeader(t: string)
    requires ':' in t
    ensures PrintField(LineField(t, IndexOf(t, ':'))) == t + "\r\n" <==> Spaced(t)
  {
    hide IndexOf;
    var c := IndexOf(t, ':');
    var name, w := t[..c], t[c + 1..];
    assert t == name + ":" + w;
    if Spaced(t) {
      assert w == " " + w[1..];
      assert name + ":" + (" " + w[1..]) == name + ": " + w[1..];
    } else {
      assert |PrintField(LineField(t, c))| == |t| + 3;
    }
  }

  lemma ReprintLine(hs: seq<Field>, t: string)
    requires Reprint.requires(hs, t)
    ensures Reprint(hs, t) == t + "\r\n" <==> ((hs != [] && t[0] in WSP) || Spaced(t))
  {
    hide IndexOf, PrintField, LineField, Spaced;
    if !(hs != [] && t[0] in WSP) {
      ReprintHeader(t);
    }
  }

  // The printed line with its line end removed.
  function Reprinted(hs: seq<Field>, t: string): (u: string)
    requires Reprint.requires(hs, t)
    ensures Reprint(hs, t) == u + "\r\n"
    ensures SegmentOk(t) ==> SegmentOk(u)
  {
    if hs != [] && t[0] in WSP then t
    else var f := LineField(t, IndexOf(t, ':')); f.name + ": " + f.value
  }

  lemma ReprintIsOneLine(hs: seq<Field>, t: string, x: string)
    requires Reprint.requires(hs, t) && SegmentOk(t) && Reprint(hs, t) <= x
    ensures x != [] && FirstLine(x) == Reprint(hs, t)
  {
    var u := Reprinted(hs, t);
    var rest := x[|u| + 2..];
    assert x == u + "\r\n" + rest;
    ReadLine(u, rest);
  }

  lemma ReprintUnchanged(hs: seq<Field>, line: string)
    requires Reprint.requires(hs, Chomp(line)) && SegmentOk(Chomp(line))
    ensures var t := Chomp(line);
            line == Reprint(hs, t) <==> line == t + "\r\n" && ((hs != [] && t[0] in WSP) || Spaced(t))
  {
    var t := Chomp(line);
    var u := Reprinted(hs, t);
    ReadLine(u, []);
    ReprintLine(hs, t);
  }

  lemma Cancel(p: string, a: string, b: string)
    ensures p + a == p + b <==> a == b
  {
    assert (p + a)[|p|..] == a && (p + b)[|p|..] == b;
  }

  lemma CanonicalBlank(hs: seq<Field>, x: string)
    requires x != [] && Chomp(FirstLine(x)) == []
    ensures Print(ParseFrom(hs, x)) == PrintFields(hs) + x <==> FirstLine(x) == "\r\n"
  {
    var line := FirstLine(x);
    var p, rest := PrintFields(hs), x[|line|..];
    assert Print(ParseFrom(hs, x)) == p + ("\r\n" + rest);
    Cancel(p, "\r\n" + rest, x);
    assert x == line + rest;
    if "\r\n" + rest == x {
      assert |line| == 2 && line == x[..2];
    }
  }

  function Extend(hs: seq<Field>, t: string): seq<Field>
    requires Reprint.requires(hs, t)
  {
    if hs != [] && t[0] in WSP then Fold(hs, t) else hs + [LineField(t, IndexOf(t, ':'))]
  }

  lemma ExtendPrints(hs: seq<Field>, t: string)
    requires Reprint.requires(hs, t)
    ensures PrintFields(Extend(hs, t)) == PrintFields(hs) + Reprint(hs, t)
  {
    if hs != [] && t[0] in WSP { PrintFold(hs, t); } else { PrintAppend(hs, LineField(t, IndexOf(t, ':'))); }
  }

  lemma StepLine(hs: seq<Field>, x: string)
    requires x != [] && Reprint.requires(hs, Chomp(FirstLine(x)))
    ensures var line := FirstLine(x);
            ParseFrom(hs, x) == ParseFrom(Extend(hs, Chomp(line)), x[|line|..])
  {
    assert FirstLine(x)[0] == Chomp(FirstLine(x))[0];
  }

  lemma PrefixOf(p: string, r: string, x: string)
    ensures p + r <= p + x <==> r <= x
  {
    assert (p + x)[|p|..] == x;
    if p + r <= p + x {
      assert r == (p + r)[|p|..] == (p + x)[..|p| + |r|][|p|..];
    }
  }

  lemma CanonicalStep(hs: seq<Field>, x: string)
    requires x != [] && Reprint.requires(hs, Chomp(FirstLine(x)))
    ensures var line := FirstLine(x);
            var t, rest := Chomp(line), x[|line|..];
            Print(ParseFrom(hs, x)) == PrintFields(hs) + x
            <==> line == Reprint(hs, t)
                 && Print(ParseFrom(Extend(hs, t), rest)) == PrintFields(Extend(hs, t)) + rest
  {
    hide ParseFrom, Print, PrintFields, Extend, Chomp, FirstLine, SegmentOk;
    var line := FirstLine(x);
    var t, rest := Chomp(line), x[|line|..];
    var p, r := PrintFields(hs), Reprint(hs, t);
    hide Reprint;
    StepLine(hs, x);
    ExtendPrints(hs, t);
    if Print(ParseFrom(hs, x)) == p + x {
      PrintGrows(Extend(hs, t), rest);
      PrefixOf(p, r, x);
      LineTextIsSegment(line);
      ReprintIsOneLine(hs, t, x);
    }
    if line == r {
      assert p + x == p + r + rest;
    }
  }

  lemma {:induction false} CanonicalFrom(hs: seq<Field>, x: string)
    ensures Print(ParseFrom(hs, x)) == PrintFields(hs) + x <==> Canonical(hs == [], x)
    decreases |x|
  {
    if x == [] {
      assert |Print(ParseFrom(hs, x))| == |PrintFields(hs)| + 2;
    } else {
      var line := FirstLine(x);
      var t := Chomp(line);
      if t == [] {
        CanonicalBlank(hs, x);
        assert t + "\r\n" == "\r\n";
      } else if (hs != [] && t[0] in WSP) || ':' in t {
        CanonicalStep(hs, x);
        LineTextIsSegment(line);
        ReprintUnchanged(hs, line);
        CanonicalFrom(Extend(hs, t), x[|line|..]);
      } else {
        NotAHeader(hs, x);
      }
    }
  }

  lemma NotAHeader(hs: seq<Field>, x: string)
    requires x != [] && Chomp(FirstLine(x)) != [] && ':' !in Chomp(FirstLine(x))
    requires hs == [] || FirstLine(x)[0] !in WSP
    ensures Print(ParseFrom(hs, x)) != PrintFields(hs) + x
  {
    assert |Print(ParseFrom(hs, x))| == |PrintFields(hs)| + 2 + |x|;
  }

  /** Parsing and printing gives a message back byte for byte exactly when its
      header block is in canonical form. */
  lemma PrintParseIsIdentity(x: string)
    ensures Print(Parse(x)) == x <==> Canonical(true, x)
  {
    hide ParseFrom, Canonical, Print;
    CanonicalFrom([], x);
    assert PrintFields([]) + x == x;
  }

  // ---------- The bounded header prefix ----------

  const MAX_HEADER_BYTES: nat := 1024 * 1024

  datatype Block = Block(text: string, terminated: bool)

  function HeaderBlock(x: string): (b: Block)
    ensures b.text <= x
  {
    var head := x[..Min(|x|, MAX_HEADER_BYTES)];
    var i := Find(head, "\r\n\r\n");
    if i >= 0 then Block(head[..i + 4], true)
    else
      var j := Find(head, "\n\n");
      if j >= 0 then Block(head[..j + 2], true) else Block(head, false)
  }

  predicate At(s: string, sep: string, k: int) {
    0 <= k && k + |sep| <= |s| && s[k..k + |sep|] == sep
  }

  ghost predicate First(s: string, sep: string, k: int) {
    At(s, sep, k) && forall j :: 0 <= j < k ==> !At(s, sep, j)
  }

  lemma FoundIsFirst(s: string, sep: string)
    ensures if Find(s, sep) >= 0 then First(s, sep, Find(s, sep)) else forall k :: !At(s, sep, k)
  {
    hide Find;
    forall k | At(s, sep, k) ensures 0 <= Find(s, sep) <= k {
      FindIsFirst(s, sep, k);
    }
  }

  /** Of the first megabyte, the block is what the first CRLF blank line ends;
      where there is none, what the first LF blank line ends; where there is
      neither it is all of it, and not terminated. */
  lemma BlockIs(x: string)
    ensures var b, head := HeaderBlock(x), x[..if |x| < 1048576 then |x| else 1048576];
            if i :| First(head, "\r\n\r\n", i) then b == Block(head[..i + 4], true)
            else if j :| First(head, "\n\n", j) then b == Block(head[..j + 2], true)
            else b == Block(head, false) && forall k :: !At(head, "\r\n\r\n", k) && !At(head, "\n\n", k)
  {
    hide Find;
    var head := x[..Min(|x|, MAX_HEADER_BYTES)];
    FoundIsFirst(head, "\r\n\r\n");
    FoundIsFirst(head, "\n\n");
  }

  predicate EndsBlank(p: string) {
    var n := |p|;
    n >= 1 && p[n - 1] == '\n'
    && (n == 1 || p[n - 2] == '\n' || (p[n - 2] == '\r' && (n == 2 || p[n - 3] == '\n')))
  }

  lemma {:induction false} ParsePrefix(hs: seq<Field>, p: string, rest: string)
    requires EndsBlank(p)
    ensures ParseFrom(hs, p + rest) == Msg(ParseFrom(hs, p).headers, ParseFrom(hs, p).body + rest)
    decreases |p|
  {
    var line := FirstLine(p);
    var x := p + rest;
    assert p[|p| - 1] == '\n';
    IndexOfUnique(x, '\n', IndexOf(p, '\n'));
    assert FirstLine(x) == line;
    var q := p[|line|..];
    assert x[|line|..] == q + rest;
    if Chomp(line) != [] {
      assert EndsBlank(q);
      if Continues(hs, line) {
        ParsePrefix(Fold(hs, Chomp(line)), q, rest);
      } else if IndexOf(Chomp(line), ':') >= 0 {
        ParsePrefix(hs + [LineField(Chomp(line), IndexOf(Chomp(line), ':'))], q, rest);
      }
    }
  }

  lemma BlockEndsBlank(head: string, i: nat)
    ensures i + 4 <= |head| && head[i..i + 4] == "\r\n\r\n" ==> EndsBlank(head[..i + 4])
    ensures i + 2 <= |head| && head[i..i + 2] == "\n\n" ==> EndsBlank(head[..i + 2])
  {
    if i + 4 <= |head| && head[i..i + 4] == "\r\n\r\n" {
      assert forall k :: 0 <= k < 4 ==> head[i + k] == "\r\n\r\n"[k];
    }
    if i + 2 <= |head| && head[i..i + 2] == "\n\n" {
      assert forall k :: 0 <= k < 2 ==> head[i + k] == "\n\n"[k];
    }
  }

  lemma TerminatedEndsBlank(x: string)
    requires HeaderBlock(x).terminated
    ensures EndsBlank(HeaderBlock(x).text)
  {
    hide EndsBlank, Find;
    var head := x[..Min(|x|, MAX_HEADER_BYTES)];
    var i, j := Find(head, "\r\n\r\n"), Find(head, "\n\n");
    if i >= 0 {
      BlockEndsBlank(head, i);
    } else {
      BlockEndsBlank(head, j);
    }
  }

  /** A terminated prefix decides the headers of the whole message, however
      long the message is. */
  lemma PrefixDecides(x: string)
    requires HeaderBlock(x).terminated
    ensures var b := HeaderBlock(x).text;
            Parse(x) == Msg(Parse(b).headers, Parse(b).body + x[|b|..])
  {
    hide ParseFrom, EndsBlank, HeaderBlock;
    TerminatedEndsBlank(x);
    var b := HeaderBlock(x).text;
    var rest := x[|b|..];
    ParsePrefix([], b, rest);
    assert b + rest == x;
  }

  // ---------- Header edits ----------

  /** How many headers carry `name`, whatever its case. */
  function Count(hs: seq<Field>, name: string): nat {
    if hs == [] then 0
    else Count(hs[..|hs| - 1], name) + if EqualFold(hs[|hs| - 1].name, name) then 1 else 0
  }

  lemma {:induction false} CountMonotone(hs: seq<Field>, name: string, k: nat)
    requires k <= |hs|
    ensures Count(hs[..k], name) <= Count(hs, name)
    decreases |hs|
  {
    if k < |hs| {
      assert hs[..|hs| - 1][..k] == hs[..k];
      CountMonotone(hs[..|hs| - 1], name, k);
    } else {
      assert hs[..k] == hs;
    }
  }

  /** `i` holds the `index`-th header called `name`, counting from one. */
  predicate IsNth(hs: seq<Field>, index: nat, name: string, i: int) {
    0 <= i < |hs| && EqualFold(hs[i].name, name) && Count(hs[..i + 1], name) == index
  }

  lemma NthUnique(hs: seq<Field>, index: nat, name: string, i: int, j: int)
    requires IsNth(hs, index, name, i) && IsNth(hs, index, name, j)
    ensures i == j
  {
    if i < j {
      NthBefore(hs, index, name, i, j);
    } else if j < i {
      NthBefore(hs, index, name, j, i);
    }
  }

  lemma NthBefore(hs: seq<Field>, index: nat, name: string, i: int, j: int)
    requires IsNth(hs, index, name, i) && 0 <= i < j < |hs| && EqualFold(hs[j].name, name)
    ensures Count(hs[..j + 1], name) > index
  {
    assert hs[..j + 1][..j] == hs[..j];
    assert hs[..j][..i + 1] == hs[..i + 1];
    CountMonotone(hs[..j], name, i + 1);
  }

  function Inserted(hs: seq<Field>, index: int, f: Field): (r: seq<Field>)
    ensures index <= 1 ==> r == [f] + hs
    ensures index > |hs| ==> r == hs + [f]
    ensures 1 <= index <= |hs| ==> |r| == |hs| + 1 && r[index - 1] == f && r[..index - 1] + r[index..] == hs
  {
    var pos := if index < 1 then 0 else if index - 1 > |hs| then |hs| else index - 1;
    assert hs == hs[..pos] + hs[pos..];
    hs[..pos] + [f] + hs[pos..]
  }

  /** What asking for the `index`-th header called `name` to become `value`
      leaves: an empty value deletes, an index past the end appends. */
  ghost function Changed(hs: seq<Field>, index: nat, name: string, value: string): seq<Field> {
    if exists i :: IsNth(hs, index, name, i) then
      var i :| IsNth(hs, index, name, i);
      if value == [] then hs[..i] + hs[i + 1..] else hs[i := Field(hs[i].name, value)]
    else if value == [] then hs
    else hs + [Field(name, value)]
  }

  /** The values of the headers called `name`, in order. */
  function Values(hs: seq<Field>, name: string): seq<string> {
    if hs == [] then []
    else
      var n := |hs| - 1;
      Values(hs[..n], name) + if EqualFold(hs[n].name, name) then [hs[n].value] else []
  }

  lemma {:induction false} ValuesConcat(a: seq<Field>, b: seq<Field>, name: string)
    ensures Values(a + b, name) == Values(a, name) + Values(b, name)
  {
    hide EqualFold;
    if b == [] {
      assert a + b == a;
    } else {
      var n := |b| - 1;
      ValuesConcat(a, b[..n], name);
      assert (a + b)[..|a + b| - 1] == a + b[..n];
    }
  }

  lemma ValueOfOne(f: Field, name: string)
    ensures Values([f], name) == if EqualFold(f.name, name) then [f.value] else []
  {
    assert [f][..0] == [];
  }

  /** `i` is the first header called `name`. */
  predicate FirstOf(hs: seq<Field>, name: string, i: int) {
    0 <= i < |hs| && EqualFold(hs[i].name, name) && forall j :: 0 <= j < i ==> !EqualFold(hs[j].name, name)
  }

  /** It is the only one. */
  predicate OnlyOne(hs: seq<Field>, name: string, i: int) {
    FirstOf(hs, name, i) && forall j :: i < j < |hs| ==> !EqualFold(hs[j].name, name)
  }

  lemma {:induction false} NoValues(hs: seq<Field>, name: string)
    ensures Values(hs, name) == [] <==> forall j :: 0 <= j < |hs| ==> !EqualFold(hs[j].name, name)
  {
    hide EqualFold;
    if hs != [] {
      var n := |hs| - 1;
      NoValues(hs[..n], name);
      assert forall j :: 0 <= j < n ==> hs[..n][j] == hs[j];
    }
  }

  lemma FirstValue(hs: seq<Field>, name: string, i: nat)
    requires FirstOf(hs, name, i)
    ensures Values(hs, name) == [hs[i].value] + Values(hs[i + 1..], name)
  {
    hide EqualFold, Values;
    var before, after := hs[..i], hs[i + 1..];
    NoValues(before, name);
    assert hs == before + [hs[i]] + after;
    ValuesConcat(before + [hs[i]], after, name);
    ValuesConcat(before, [hs[i]], name);
    ValueOfOne(hs[i], name);
    assert [] + [hs[i].value] == [hs[i].value];
  }

  lemma {:induction false} HasFirst(hs: seq<Field>, name: string) returns (i: nat)
    requires Values(hs, name) != []
    ensures FirstOf(hs, name, i)
  {
    hide EqualFold;
    var n := |hs| - 1;
    if Values(hs[..n], name) != [] {
      i := HasFirst(hs[..n], name);
    } else {
      NoValues(hs[..n], name);
      i := n;
    }
  }

  /** One value where there is only one such header. */
  lemma OneValue(hs: seq<Field>, name: string)
    ensures |Values(hs, name)| == 1 <==> exists i :: OnlyOne(hs, name, i)
    ensures forall i :: OnlyOne(hs, name, i) ==> Values(hs, name) == [hs[i].value]
  {
    hide EqualFold, Values;
    if |Values(hs, name)| == 1 {
      var i := HasFirst(hs, name);
      OnlyWhen(hs, name, i);
    }
    forall i | OnlyOne(hs, name, i) ensures Values(hs, name) == [hs[i].value] {
      OnlyWhen(hs, name, i);
    }
  }

  lemma OnlyWhen(hs: seq<Field>, name: string, i: nat)
    requires FirstOf(hs, name, i)
    ensures OnlyOne(hs, name, i) <==> Values(hs, name) == [hs[i].value]
    ensures OnlyOne(hs, name, i) <==> |Values(hs, name)| == 1
  {
    hide EqualFold, Values;
    FirstValue(hs, name, i);
    var after := hs[i + 1..];
    NoValues(after, name);
    assert forall j :: i < j < |hs| ==> hs[j] == after[j - i - 1];
    assert forall j :: 0 <= j < |after| ==> after[j] == hs[i + 1 + j];
    assert [hs[i].value] + [] == [hs[i].value];
  }

  lemma {:induction false} CountIsValues(hs: seq<Field>, name: string)
    ensures Count(hs, name) == |Values(hs, name)|
  {
    if hs != [] {
      CountIsValues(hs[..|hs| - 1], name);
    }
  }

  lemma {:induction false} NthExists(hs: seq<Field>, index: nat, name: string) returns (i: nat)
    requires 1 <= index <= |Values(hs, name)|
    ensures IsNth(hs, index, name, i)
  {
    var n := |hs| - 1;
    CountIsValues(hs, name);
    CountIsValues(hs[..n], name);
    if index <= |Values(hs[..n], name)| {
      i := NthExists(hs[..n], index, name);
      assert hs[..n][..i + 1] == hs[..i + 1];
    } else {
      i := n;
      assert hs[..n + 1] == hs;
    }
  }

  // The n-th header of a name, among the values of that name and of another.
  lemma SplitAtNth(hs: seq<Field>, index: nat, name: string, i: nat, other: string)
    requires IsNth(hs, index, name, i)
    ensures Values(hs, other) == Values(hs[..i], other) + Values([hs[i]], other) + Values(hs[i + 1..], other)
    ensures |Values(hs[..i], name)| == index - 1 && Values([hs[i]], name) == [hs[i].value]
  {
    hide EqualFold;
    assert hs == hs[..i] + [hs[i]] + hs[i + 1..];
    ValuesConcat(hs[..i] + [hs[i]], hs[i + 1..], other);
    ValuesConcat(hs[..i], [hs[i]], other);
    assert hs[..i + 1][..i] == hs[..i];
    CountIsValues(hs[..i], name);
    ValueOfOne(hs[i], name);
  }

  lemma ReplacedValues(hs: seq<Field>, i: nat, f: Field, name: string)
    requires i < |hs|
    ensures Values(hs[i := f], name) == Values(hs[..i], name) + Values([f], name) + Values(hs[i + 1..], name)
    ensures Values(hs[..i] + hs[i + 1..], name) == Values(hs[..i], name) + Values(hs[i + 1..], name)
  {
    assert hs[i := f] == hs[..i] + [f] + hs[i + 1..];
    ValuesConcat(hs[..i] + [f], hs[i + 1..], name);
    ValuesConcat(hs[..i], [f], name);
    ValuesConcat(hs[..i], hs[i + 1..], name);
  }

  /** The `index`-th value of a name is replaced or taken out, one more is
      appended when there are not so many, and no other name is touched. */
  lemma ChangedValues(hs: seq<Field>, index: nat, name: string, value: string, other: string)
    ensures var was := Values(hs, name);
            Values(Changed(hs, index, name, value), name)
            == if 1 <= index <= |was| then
                 if value == [] then was[..index - 1] + was[index..] else was[index - 1 := value]
               else if value == [] then was else was + [value]
    ensures !EqualFold(other, name) ==> Values(Changed(hs, index, name, value), other) == Values(hs, other)
  {
    hide Values, EqualFold, Count;
    if 1 <= index <= |Values(hs, name)| {
      var k := NthExists(hs, index, name);
    }
    if i :| IsNth(hs, index, name, i) {
      ChangedAt(hs, index, name, value, i);
      ChangedNth(hs, index, name, value, i, other);
    } else {
      ValuesConcat(hs, [Field(name, value)], name);
      ValuesConcat(hs, [Field(name, value)], other);
      ValueOfOne(Field(name, value), name);
      ValueOfOne(Field(name, value), other);
      SameName(name, other);
    }
  }

  lemma SameName(a: string, b: string)
    ensures EqualFold(a, a) && (EqualFold(a, b) <==> EqualFold(b, a))
  {
  }

  lemma ChangedAt(hs: seq<Field>, index: nat, name: string, value: string, i: nat)
    requires IsNth(hs, index, name, i)
    ensures Changed(hs, index, name, value)
            == if value == [] then hs[..i] + hs[i + 1..] else hs[i := Field(hs[i].name, value)]
  {
    forall k | IsNth(hs, index, name, k) ensures k == i { NthUnique(hs, index, name, k, i); }
  }

  lemma Splice(was: seq<string>, before: seq<string>, v: string, after: seq<string>, value: string)
    requires was == before + [v] + after
    ensures var k := |before| + 1;
            && |was| >= k && was[..k - 1] + was[k..] == before + after
            && was[k - 1 := value] == before + [value] + after
  {
    assert was[..|before|] == before && was[|before| + 1..] == after;
  }

  lemma ChangedNth(hs: seq<Field>, index: nat, name: string, value: string, i: nat, other: string)
    requires IsNth(hs, index, name, i)
    ensures 1 <= index <= |Values(hs, name)|
    ensures var r := if value == [] then hs[..i] + hs[i + 1..] else hs[i := Field(hs[i].name, value)];
            var was := Values(hs, name);
            && Values(r, name) == (if value == [] then was[..index - 1] + was[index..] else was[index - 1 := value])
            && (!EqualFold(other, name) ==> Values(r, other) == Values(hs, other))
  {
    hide Values, Count, EqualFold;
    var f := Field(hs[i].name, value);
    SplitAtNth(hs, index, name, i, name);
    Splice(Values(hs, name), Values(hs[..i], name), hs[i].value, Values(hs[i + 1..], name), value);
    ReplacedValues(hs, i, f, name);
    ValueOfOne(f, name);
    if !EqualFold(other, name) {
      OtherName(hs[i].name, name, other);
      SplitAtNth(hs, index, name, i, other);
      ReplacedValues(hs, i, f, other);
      ValueOfOne(f, other);
      ValueOfOne(hs[i], other);
    }
  }

  lemma OtherName(a: string, b: string, c: string)
    requires EqualFold(a, b) && !EqualFold(c, b)
    ensures !EqualFold(a, c)
  {
  }

  class ParsedMessage {
    var headers: seq<Field>
    var body: string

    constructor (m: Msg)
      ensures headers == m.headers && body == m.body
    {
      headers := m.headers;
      body := m.body;
    }

    method AddHeader(name: string, value: string)
      modifies this`headers
      ensures headers == old(headers) + [Field(name, value)]
    {
      headers := headers + [Field(name, value)];
    }

    method InsertHeader(index: int, name: string, value: string)
      modifies this`headers
      ensures headers == Inserted(old(headers), index, Field(name, value))
    {
      var pos := index - 1;
      if pos < 0 {
        pos := 0;
      }
      if pos > |headers| {
        pos := |headers|;
      }
      headers := headers[..pos] + [Field(name, value)] + headers[pos..];
    }

    method ChangeHeader(index: nat, name: string, value: string)
      modifies this`headers
      ensures headers == Changed(old(headers), index, name, value)
    {
      ghost var hs := headers;
      var seen := 0;
      for i := 0 to |headers|
        invariant headers == hs && seen == Count(hs[..i], name)
        invariant forall k :: 0 <= k < i ==> !IsNth(hs, index, name, k)
      {
        assert hs[..i + 1][..i] == hs[..i];
        if EqualFold(headers[i].name, name) {
          seen := seen + 1;
          if seen == index {
            assert IsNth(hs, index, name, i);
            forall k | IsNth(hs, index, name, k) ensures k == i { NthUnique(hs, index, name, k, i); }
            if value == [] {
              headers := headers[..i] + headers[i + 1..];
            } else {
              headers := headers[i := Field(headers[i].name, value)];
            }
            return;
          }
        }
      }
      if value != [] {
        AddHeader(name, value);
      }
    }
  }
}
