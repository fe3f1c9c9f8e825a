/** The buffer one message lives in: on the heap while it is small, in an
    unlinked file past a threshold. Models internal/gateway/spool.go.
 */
module Spool {
  import opened Text
  import Message

  /** What the file system does to one write. `Short` is a full disk: only
      `room` more bytes are taken. */
  datatype Fault = Healthy | NoCreate | NoUnlink | NoMove | Short(room: nat)

  /** An open file: its bytes and the cursor that reads and writes share. */
  class TempFile {
    var data: string
    var pos: nat

    constructor ()
      ensures data == [] && pos == 0
    {
      data, pos := [], 0;
    }

    method Write(p: string, room: nat) returns (written: nat)
      requires pos <= |data|
      modifies this
      ensures written == Min(|p|, room) && pos == old(pos) + written <= |data|
      ensures data == old(data)[..old(pos)] + p[..written]
                      + (if pos <= |old(data)| then old(data)[pos..] else [])
    {
      written := Min(|p|, room);
      var tail := if pos + written <= |data| then data[pos + written..] else [];
      data := data[..pos] + p[..written] + tail;
      pos := pos + written;
    }

    /** Seek, then read at most `limit` bytes. */
    method ReadFrom(offset: nat, limit: nat) returns (r: string)
      requires offset <= |data|
      modifies this`pos
      ensures r == data[offset..offset + Min(limit, |data| - offset)]
      ensures pos == offset + |r|
    {
      r := data[offset..offset + Min(limit, |data| - offset)];
      pos := offset + |r|;
    }
  }

  class Spool {
    const threshold: int
    var buf: string
    var file: TempFile?
    var n: nat

    ghost function Repr(): set<object>
      reads this
    {
      {this} + if file == null then {} else {file}
    }

    /** The body, wherever it is stored. */
    ghost function Contents(): string
      reads this, file
    {
      if file == null then buf else file.data
    }

    /** The heap holds no more than the threshold, and nothing once the body is
        on disk. */
    ghost predicate Valid()
      reads this, file
    {
      && n == |Contents()|
      && (if file == null then |buf| <= threshold || buf == [] else buf == [] && file.pos <= |file.data|)
    }

    /** The cursor is where a write belongs: nothing was read since. */
    ghost predicate Writable()
      reads this, file
    {
      file == null || file.pos == |file.data|
    }

    constructor (threshold: int)
      ensures Valid() && Writable() && Contents() == [] && file == null && this.threshold == threshold
    {
      this.threshold := threshold;
      buf, file, n := [], null, 0;
    }

    /** Moves the buffered bytes to a file, or changes nothing. */
    method Overflow(fault: Fault) returns (ok: bool)
      requires Valid() && file == null
      modifies this
      ensures Valid() && Writable() && Contents() == old(Contents()) && n == old(n)
      ensures ok <==> !(fault.NoCreate? || fault.NoUnlink? || fault.NoMove?)
      ensures ok ==> file != null && fresh(file)
      ensures !ok ==> file == null
    {
      if fault.NoCreate? || fault.NoUnlink? {
        return false;
      }
      var f := new TempFile();
      var room := if fault.NoMove? then 0 else |buf|;
      var moved := f.Write(buf, room);
      if fault.NoMove? {
        return false;
      }
      buf := [];
      file := f;
      return true;
    }

    method Write(p: string, fault: Fault) returns (written: nat, ok: bool)
      requires Valid() && Writable()
      modifies Repr()
      ensures Valid() && Writable() && fresh(Repr() - old(Repr()))
      ensures written <= |p| && Contents() == old(Contents()) + p[..written]
      ensures ok ==> written == |p|
      ensures fault.Healthy? ==> ok
      ensures old(file) != null ==> file == old(file)
      ensures fault.NoCreate? || fault.NoUnlink? || fault.NoMove? ==> ok || (written == 0 && file == old(file))
    {
      if file == null && n + |p| > threshold {
        var moved := Overflow(fault);
        if !moved {
          return 0, false;
        }
      }
      if file != null {
        var room := if fault.Short? then fault.room else |p|;
        written := file.Write(p, room);
      } else {
        buf := buf + p;
        written := |p|;
      }
      n := n + written;
      ok := written == |p|;
    }

    /** An empty spool with the same storage decisions. */
    method Sibling() returns (s: Spool)
      ensures fresh(s) && fresh(s.Repr()) && s.Valid() && s.Writable() && s.Contents() == [] && s.threshold == threshold
    {
      s := new Spool(threshold);
    }

    method Len() returns (len: nat)
      requires Valid()
      ensures len == |Contents()|
    {
      len := n;
    }

    method ReadSome(offset: nat, limit: nat) returns (r: string)
      requires Valid() && offset <= n
      modifies if file == null then {} else {file}
      ensures Valid() && Contents() == old(Contents()) && file == old(file) && n == old(n)
      ensures r == Contents()[offset..offset + Min(limit, n - offset)]
      ensures file == null || file.pos == offset + |r|
    {
      if file == null {
        r := buf[offset..offset + Min(limit, n - offset)];
      } else {
        r := file.ReadFrom(offset, limit);
      }
    }

    /** `ReaderAt`, drained: the body from an offset on. */
    method ReadAt(offset: nat) returns (r: string)
      requires Valid()
      modifies if file == null then {} else {file}
      ensures Valid() && Contents() == old(Contents()) && file == old(file) && n == old(n)
      ensures r == Contents()[Min(offset, n)..]
      ensures Writable()
    {
      var from := if offset > n then n else offset;
      r := ReadSome(from, n - from);
    }

    /** The header block, read from at most the first megabyte. */
    method HeaderBlock() returns (b: Message.Block)
      requires Valid()
      modifies if file == null then {} else {file}
      ensures Valid() && Contents() == old(Contents()) && file == old(file) && n == old(n)
      ensures b == Message.HeaderBlock(Contents())
    {
      var block := ReadSome(0, Message.MAX_HEADER_BYTES);
      assert block == Contents()[..Min(n, Message.MAX_HEADER_BYTES)];
      var i := Find(block, "\r\n\r\n");
      if i >= 0 {
        return Message.Block(block[..i + 4], true);
      }
      i := Find(block, "\n\n");
      if i >= 0 {
        return Message.Block(block[..i + 2], true);
      }
      return Message.Block(block, false);
    }

    /** Replaces the body, keeping it where it is stored. */
    method Reset(data: string, fault: Fault) returns (ok: bool)
      requires Valid()
      modifies Repr()
      ensures Valid() && Writable() && fresh(Repr() - old(Repr()))
      ensures Contents() <= data && (ok ==> Contents() == data)
      ensures fault.Healthy? ==> ok
      ensures old(file) != null ==> file == old(file)
    {
      if file != null {
        file.data, file.pos := [], 0;
      } else {
        buf := [];
      }
      n := 0;
      var written;
      written, ok := Write(data, fault);
      assert data[..|data|] == data;
    }

    /** io.Copy: appends `p` in chunks, stopping at the first failure. */
    method Copy(p: string, faults: seq<Fault>) returns (copied: nat, ok: bool)
      requires Valid() && Writable()
      modifies Repr()
      ensures Valid() && Writable() && fresh(Repr() - old(Repr()))
      ensures copied <= |p| && Contents() == old(Contents()) + p[..copied]
      ensures ok ==> copied == |p|
      ensures (forall f | f in faults :: f.Healthy?) ==> ok
    {
      copied, ok := 0, true;
      ghost var start := Contents();
      var chunk := 0;
      while copied < |p| && ok
        invariant copied <= |p| && Valid() && Writable() && fresh(Repr() - old(Repr()))
        invariant Contents() == start + p[..copied]
        invariant (forall f | f in faults :: f.Healthy?) ==> ok
        decreases ok, |p| - copied
      {
        var size := Min(|p| - copied, COPY_BUFFER);
        var fault := if chunk < |faults| then faults[chunk] else Healthy;
        var written;
        written, ok := Write(p[copied..copied + size], fault);
        Appended(start, p, copied, size, written);
        copied, chunk := copied + written, chunk + 1;
      }
    }
  }

  lemma Appended(start: string, p: string, k: nat, size: nat, w: nat)
    requires k + size <= |p| && w <= size
    ensures start + p[..k] + p[k..k + size][..w] == start + p[..k + w]
  {
    assert p[k..k + size][..w] == p[k..k + w];
    assert p[..k] + p[k..k + w] == p[..k + w];
  }

  const COPY_BUFFER: nat := 32 * 1024

  function Flatten(chunks: seq<string>): string {
    if chunks == [] then [] else Flatten(chunks[..|chunks| - 1]) + chunks[|chunks| - 1]
  }

  /** A spool is a byte string: whatever the threshold and however the bytes
      arrive, it reads back their concatenation. */
  method SpoolIsAString(threshold: int, chunks: seq<string>, offset: nat)
    returns (whole: string, suffix: string, len: nat, block: Message.Block, heap: nat)
    ensures whole == Flatten(chunks)
    ensures suffix == whole[Min(offset, |whole|)..]
    ensures len == |whole|
    ensures block == Message.HeaderBlock(whole)
    ensures heap <= threshold || heap == 0
  {
    var s := new Spool(threshold);
    for i := 0 to |chunks|
      invariant s.Valid() && s.Writable() && fresh(s.Repr()) && s.Contents() == Flatten(chunks[..i])
    {
      var written, ok := s.Write(chunks[i], Healthy);
      assert chunks[..i + 1][..i] == chunks[..i];
      assert chunks[i][..written] == chunks[i];
    }
    assert chunks[..|chunks|] == chunks;
    heap := |s.buf|;
    whole := s.ReadAt(0);
    suffix := s.ReadAt(offset);
    len := s.Len();
    block := s.HeaderBlock();
  }
}
