// The JPEG decoder's input: the file's bytes in refills of up to 4096, and end
// of image markers for as long as the decoder keeps reading past its end.

module JpegSource {
  import opened Memory

  const BUFFER_SIZE: nat := 4096

  /** A file being read; how many bytes a read gets is up to the file, but none only at its end. */
  class InputFile {
    const bytes: seq<byte>
    var position: nat

    ghost predicate Valid()
      reads this
    {
      position <= |bytes|
    }

    constructor (bytes: seq<byte>)
      ensures Valid() && this.bytes == bytes && position == 0
    {
      this.bytes, position := bytes, 0;
    }

    method Read(buffer: array<byte>) returns (n: nat)
      requires Valid() && buffer.Length >= BUFFER_SIZE
      modifies `position, buffer
      ensures Valid() && position == old(position) + n && n <= BUFFER_SIZE
      ensures n == 0 <==> old(position) == |bytes|
      ensures buffer[..n] == bytes[old(position)..position] && buffer[n..] == old(buffer[n..])
    {
      var most := |bytes| - position;
      if most == 0 { n := 0; } else { n :| 1 <= n <= most && n <= BUFFER_SIZE; }
      forall i | 0 <= i < n { buffer[i] := bytes[position + i]; }
      position := position + n;
    }
  }

  /** Byte i of a file followed without end by pairs of 0xFF and 0xD9. */
  function Endless(file: seq<byte>, i: nat): byte {
    if i < |file| then file[i] else if (i - |file|) % 2 == 0 then 0xFF else 0xD9
  }

  /** The next n bytes of the stream. */
  function Segment(file: seq<byte>, from: nat, n: nat): (s: seq<byte>)
    ensures |s| == n && forall i :: 0 <= i < n ==> s[i] == Endless(file, from + i)
  {
    seq<byte>(n, i requires 0 <= i < n => Endless(file, from + i))
  }

  /** What a refill gets is what comes next in the stream. */
  lemma {:induction false} Refilled(file: seq<byte>, from: nat, n: nat, got: seq<byte>, position: nat)
    requires position == (if from < |file| then from else |file|)
    requires if position < |file| then position + n <= |file| && got == file[position..position + n]
             else (from - |file|) % 2 == 0 && n == 2 && got == [0xFF, 0xD9]
    ensures got == Segment(file, from, n)
  {}

  class Source {
    const io: InputFile
    const buffer: array<byte>
    var next: nat
    var inBuffer: nat
    var bytesHaveBeenRead: bool
    /** How many bytes of the endless stream the decoder has taken or skipped. */
    ghost var consumed: nat

    /** What waits in the buffer comes next in the endless stream; the file is read exactly that far. */
    ghost predicate Valid()
      reads this, io, buffer
    {
      && io.Valid() && buffer.Length == BUFFER_SIZE && next + inBuffer <= BUFFER_SIZE
      && buffer[next..next + inBuffer] == Segment(io.bytes, consumed, inBuffer)
      && io.position == (if consumed + inBuffer < |io.bytes| then consumed + inBuffer else |io.bytes|)
      && (consumed + inBuffer > |io.bytes| ==> (consumed + inBuffer - |io.bytes|) % 2 == 0)
    }

    constructor (io: InputFile)
      requires io.Valid() && io.position == 0
      ensures Valid() && this.io == io && fresh(buffer) && consumed == 0 && inBuffer == 0 && !bytesHaveBeenRead
    {
      this.io := io;
      buffer := new byte[BUFFER_SIZE](_ => 0);
      next, inBuffer, bytesHaveBeenRead := 0, 0, false;
      consumed := 0;
    }

    /** Before each image the first read may again find nothing. */
    method Init()
      requires Valid()
      modifies `bytesHaveBeenRead
      ensures Valid() && !bytesHaveBeenRead
    {
      bytesHaveBeenRead := false;
    }

    /** Drops what is in the buffer and gets at least one more byte; an error only when nothing has been read and there
        is nothing to read. */
    method FillInputBuffer() returns (ok: bool)
      requires Valid()
      modifies this, buffer, io
      ensures Valid()
      ensures ok <==> old(bytesHaveBeenRead) || old(io.position) < |io.bytes|
      ensures ok ==> inBuffer > 0 && bytesHaveBeenRead && consumed == old(consumed) + old(inBuffer)
      ensures !ok ==> consumed == old(consumed) && inBuffer == old(inBuffer) && next == old(next) && !bytesHaveBeenRead
    {
      hide Segment, Endless;
      var n := io.Read(buffer);
      if n == 0 {
        assert buffer[0..] == old(buffer[0..]);
        if !bytesHaveBeenRead {
          assert buffer[next..next + inBuffer] == buffer[0..][next..next + inBuffer];
          return false;
        }
        buffer[0], buffer[1] := 0xFF, 0xD9;
        n := 2;
      }
      Refilled(io.bytes, consumed + inBuffer, n, buffer[..n], old(io.position));
      consumed := consumed + inBuffer;
      next, inBuffer, bytesHaveBeenRead := 0, n, true;
      return true;
    }

    /** Skips bytes, through as many refills as that takes. */
    method SkipInputData(byteCount: int) returns (ok: bool)
      requires Valid()
      modifies this, buffer, io
      ensures Valid()
      ensures ok ==> consumed == old(consumed) + (if byteCount > 0 then byteCount else 0)
      ensures !ok <==> byteCount > old(inBuffer) && !old(bytesHaveBeenRead) && old(io.position) == |io.bytes|
    {
      if byteCount > 0 {
        var left: nat := byteCount;
        while left > inBuffer
          invariant Valid() && consumed + left == old(consumed) + byteCount
          invariant
            || (left == byteCount && inBuffer == old(inBuffer) && bytesHaveBeenRead == old(bytesHaveBeenRead)
                && io.position == old(io.position))
            || (inBuffer > 0 && bytesHaveBeenRead && (old(bytesHaveBeenRead) || old(io.position) < |io.bytes|))
          decreases if inBuffer == 0 then left + 1 else left
        {
          ghost var dropped := inBuffer;
          left := left - inBuffer;
          ok := FillInputBuffer();
          if !ok { return false; }
        }
        Advance(left);
      }
      return true;
    }

    /** Moves within the buffer. */
    method Advance(n: nat)
      requires Valid() && n <= inBuffer
      modifies `next, `inBuffer, `consumed
      ensures Valid() && consumed == old(consumed) + n && inBuffer == old(inBuffer) - n
    {
      assert buffer[next + n..next + inBuffer] == buffer[next..next + inBuffer][n..];
      assert Segment(io.bytes, consumed + n, inBuffer - n) == Segment(io.bytes, consumed, inBuffer)[n..];
      next, inBuffer, consumed := next + n, inBuffer - n, consumed + n;
    }

    /** The decoder takes a byte, refilling the buffer when it is empty. */
    method TakeByte() returns (ok: bool, b: byte)
      requires Valid()
      modifies this, buffer, io
      ensures Valid()
      ensures ok <==> old(inBuffer) > 0 || old(bytesHaveBeenRead) || old(io.position) < |io.bytes|
      ensures ok ==> b == Endless(io.bytes, old(consumed)) && consumed == old(consumed) + 1
      ensures ok ==> bytesHaveBeenRead || (io.position == old(io.position) && !old(bytesHaveBeenRead))
    {
      b := 0;
      if inBuffer == 0 {
        ok := FillInputBuffer();
        if !ok { return; }
      }
      ok, b := true, buffer[next];
      assert b == buffer[next..next + inBuffer][0];
      Advance(1);
    }
  }

  /** Reading a file whose first read finds something gets its bytes and after them end of image markers for ever,
      however the file splits its reads. */
  method TakeBytes(source: Source, n: nat) returns (taken: seq<byte>)
    requires source.Valid() && (source.bytesHaveBeenRead || source.io.position < |source.io.bytes|)
    modifies source, source.buffer, source.io
    ensures source.Valid() && taken == Segment(source.io.bytes, old(source.consumed), n)
    ensures source.consumed == old(source.consumed) + n
  {
    taken := [];
    for i := 0 to n
      invariant source.Valid() && source.consumed == old(source.consumed) + i && |taken| == i
      invariant taken == Segment(source.io.bytes, old(source.consumed), i)
      invariant source.bytesHaveBeenRead || source.io.position < |source.io.bytes|
    {
      var ok, b := source.TakeByte();
      taken := taken + [b];
    }
  }
}
