// The JPEG encoder's output: bytes collect in a buffer of 4096 that is flushed
// to the output buffer when it is full and once more at the end.

module JpegDestination {
  import opened Options
  import opened Memory
  import OutputBuffer

  const BUFFER_SIZE: nat := 4096

  class Destination {
    const io: OutputBuffer.Buffer
    var buffer: array<byte>
    var next: nat
    var free: nat
    /** What has been emitted since the start. */
    ghost var emitted: seq<byte>

    /** The output holds what was flushed, the buffer the rest. */
    ghost predicate Valid(start: OutputBuffer.Tape)
      reads this, buffer, io, io.buffer
    {
      && buffer.Length == BUFFER_SIZE && next + free == BUFFER_SIZE && free > 0 && buffer != io.buffer
      && io.Valid() && start.Valid() && next <= |emitted|
      && io.Contents() == start.Written(emitted[..|emitted| - next]) && buffer[..next] == emitted[|emitted| - next..]
    }

    /** An empty buffer ready for the first byte. */
    constructor (io: OutputBuffer.Buffer)
      requires io.Valid()
      ensures Valid(io.Contents()) && fresh(buffer) && this.io == io && emitted == []
    {
      this.io := io;
      buffer := new byte[BUFFER_SIZE](_ => 0);
      next, free := 0, BUFFER_SIZE;
      emitted := [];
      new;
      OutputBuffer.WrittenTwice(io.Contents(), [], []);
    }

    /** Flushes the whole buffer and starts it again; called when nothing in it is free. */
    method EmptyOutputBuffer(ghost start: OutputBuffer.Tape)
      requires buffer.Length == BUFFER_SIZE && next == BUFFER_SIZE && free == 0 && buffer != io.buffer && io.Valid()
        && start.Valid()
      requires next <= |emitted| && io.Contents() == start.Written(emitted[..|emitted| - next])
      requires buffer[..] == emitted[|emitted| - next..]
      modifies `next, `free, io, io.buffer
      ensures Valid(start) && next == 0 && emitted == old(emitted) && (io.buffer == old(io.buffer) || fresh(io.buffer))
    {
      var n := io.Write(Some(buffer[..]));
      OutputBuffer.WrittenTwice(start, emitted[..|emitted| - BUFFER_SIZE], emitted[|emitted| - BUFFER_SIZE..]);
      assert emitted == emitted[..|emitted| - BUFFER_SIZE] + emitted[|emitted| - BUFFER_SIZE..];
      next, free := 0, BUFFER_SIZE;
      assert emitted[..|emitted| - next] == emitted;
    }

    /** The encoder puts a byte in the buffer, which is flushed as soon as it is full. */
    method Emit(b: byte, ghost start: OutputBuffer.Tape)
      requires Valid(start)
      modifies this, buffer, io, io.buffer
      ensures Valid(start) && emitted == old(emitted) + [b] && buffer == old(buffer)
      ensures io.buffer == old(io.buffer) || fresh(io.buffer)
    {
      buffer[next] := b;
      next, free := next + 1, free - 1;
      emitted := emitted + [b];
      assert emitted[..|emitted| - next] == old(emitted[..|emitted| - next]);
      assert buffer[..next] == old(buffer[..next]) + [b];
      if free == 0 {
        assert buffer[..] == buffer[..next];
        EmptyOutputBuffer(start);
      }
    }

    /** Flushes what is left: the output then holds exactly what was emitted. */
    method Terminate(ghost start: OutputBuffer.Tape)
      requires Valid(start)
      modifies io, io.buffer
      ensures io.Valid() && io.Contents() == start.Written(emitted)
    {
      var remaining := BUFFER_SIZE - free;
      OutputBuffer.WrittenTwice(start, emitted[..|emitted| - next], emitted[|emitted| - next..]);
      assert emitted == emitted[..|emitted| - next] + emitted[|emitted| - next..];
      if remaining > 0 {
        var n := io.Write(Some(buffer[..remaining]));
      } else {
        assert emitted[..|emitted| - next] == emitted;
      }
    }
  }

  /** Whatever the encoder emits, through however many flushes, the output buffer ends up with exactly that. */
  method Encode(io: OutputBuffer.Buffer, bytes: seq<byte>)
    requires io.Valid()
    modifies io, io.buffer
    ensures io.Valid() && io.Contents() == old(io.Contents()).Written(bytes)
  {
    ghost var start := io.Contents();
    var dest := new Destination(io);
    for i := 0 to |bytes|
      invariant dest.Valid(start) && dest.emitted == bytes[..i] && fresh(dest) && fresh(dest.buffer) && dest.io == io
      invariant io.buffer == old(io.buffer) || fresh(io.buffer)
    {
      dest.Emit(bytes[i], start);
    }
    assert bytes[..|bytes|] == bytes;
    dest.Terminate(start);
  }
}
