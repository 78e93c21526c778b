// The growable output buffer: a byte sequence with a cursor, kept in memory
// that grows as it is written.

module OutputBuffer {
  import opened Numbers
  import opened Options
  import opened Memory

  /** What a codec sees: the bytes written and where the next ones go. */
  datatype Tape = Tape(bytes: seq<byte>, cursor: nat) {
    predicate Valid() {
      cursor <= |bytes|
    }

    /** Bytes written over what is there, and past its end. */
    function Written(data: seq<byte>): (t: Tape)
      requires Valid()
      ensures t.Valid() && |t.bytes| >= |bytes|
    {
      var end := cursor + |data|;
      Tape(bytes[..cursor] + data + (if end < |bytes| then bytes[end..] else []), end)
    }

    function Moved(position: int): (t: Tape)
      requires Valid()
      ensures t.Valid()
    {
      if 0 <= position <= |bytes| then Tape(bytes, position) else this
    }

    /** As many bytes as were asked for, or all up to the end. */
    function Readable(count: nat): (n: nat)
      requires Valid()
      ensures n <= count && cursor + n <= |bytes|
    {
      if count <= |bytes| - cursor then count else |bytes| - cursor
    }

    function Passed(count: nat): (t: Tape)
      requires Valid()
      ensures t.Valid()
    {
      Tape(bytes, cursor + Readable(count))
    }
  }

  /** What writing leaves: the bytes before the cursor, the data, the bytes behind it, and the cursor there. */
  lemma {:induction false} WrittenIs(tape: Tape, data: seq<byte>)
    requires tape.Valid()
    ensures var t := tape.Written(data);
            && t.cursor == tape.cursor + |data| && |t.bytes| == Max(|tape.bytes|, t.cursor)
            && forall i: nat :: i < |t.bytes| ==>
                 t.bytes[i] == if tape.cursor <= i < t.cursor then data[i - tape.cursor] else tape.bytes[i]
  {}

  /** A new capacity holds what is needed, is half as large again as the old one, and no less than 4096; and it is the
      least such one, give or take a byte. */
  function Grown(length: nat, needed: nat): (capacity: nat)
    ensures capacity >= needed && capacity >= 4096 && capacity >= length * 3 / 2
    ensures capacity == needed || capacity == 4096 || capacity == length * 3 / 2 + 1
  {
    var atLeast := if needed < length * 3 / 2 then length * 3 / 2 + 1 else needed;
    if atLeast < 4096 then 4096 else atLeast
  }

  class Buffer {
    var buffer: array<byte>
    var cursor: nat
    var written: nat

    ghost predicate Valid()
      reads this
    {
      cursor <= written <= buffer.Length
    }

    ghost function Contents(): (t: Tape)
      requires Valid()
      reads this, buffer
      ensures t.Valid()
    {
      Tape(buffer[..written], cursor)
    }

    constructor ()
      ensures Valid() && fresh(buffer) && Contents() == Tape([], 0)
    {
      buffer := new byte[0];
      cursor, written := 0, 0;
    }

    /** Writes at the cursor, growing the memory when it is too short; without data it is an error. */
    method Write(data: Option<seq<byte>>) returns (count: nat)
      requires Valid()
      modifies this, buffer
      ensures Valid() && (buffer == old(buffer) || fresh(buffer)) && buffer.Length >= old(buffer.Length)
      ensures data.None? ==> count == 0 && Contents() == old(Contents())
      ensures data.Some? ==> count == |data.value| && Contents() == old(Contents()).Written(data.value)
    {
      if data.None? { return 0; }
      count := |data.value|;
      ghost var before := buffer[..written];
      if buffer.Length - cursor < count {
        Realloc(Grown(buffer.Length, cursor + count));
      }
      forall i | 0 <= i < count { buffer[cursor + i] := data.value[i]; }
      ghost var at := cursor;
      cursor := cursor + count;
      if written < cursor { written := cursor; }
      assert buffer[..written] ==
        before[..at] + data.value + (if at + count < |before| then before[at + count..] else []);
    }

    /** Memory of another size with the same contents. */
    method Realloc(capacity: nat)
      requires Valid() && capacity >= buffer.Length
      modifies this
      ensures fresh(buffer) && buffer.Length == capacity && cursor == old(cursor) && written == old(written)
      ensures buffer[..written] == old(buffer[..written])
    {
      var bigger := new byte[capacity](_ => 0);
      forall i | 0 <= i < buffer.Length { bigger[i] := buffer[i]; }
      buffer := bigger;
    }

    /** Moves the cursor, within what has been written. */
    method Seek(position: int) returns (ok: bool)
      requires Valid()
      modifies `cursor
      ensures Valid() && Contents() == old(Contents()).Moved(position)
      ensures ok <==> 0 <= position <= written
    {
      if position < 0 || position > written { return false; }
      cursor := position;
      return true;
    }

    /** Reads from the cursor on; without a place for the bytes it only passes them. */
    method Read(count: nat, into: bool) returns (data: seq<byte>, n: nat)
      requires Valid()
      modifies `cursor
      ensures Valid() && n == old(Contents()).Readable(count) && Contents() == old(Contents()).Passed(count)
      ensures data == if into then old(Contents()).bytes[old(cursor)..old(cursor) + n] else []
    {
      n := written - cursor;
      if n > count { n := count; }
      data := [];
      if !into {
        var ok := Seek(cursor + n);
        if !ok { assert false; }
      } else {
        data := buffer[cursor..cursor + n];
        assert data == buffer[..written][cursor..cursor + n];
        cursor := cursor + n;
      }
    }
  }

  // ---------- whole runs ----------

  datatype Call = Write(data: Option<seq<byte>>) | Seek(position: int) | Read(count: nat, into: bool)

  /** What a call does to the byte sequence and its cursor. */
  function Step(t: Tape, call: Call): (u: Tape)
    requires t.Valid()
    ensures u.Valid()
  {
    match call
    case Write(data) => if data.None? then t else t.Written(data.value)
    case Seek(position) => t.Moved(position)
    case Read(count, _) => t.Passed(count)
  }

  function Run(t: Tape, calls: seq<Call>): (u: Tape)
    requires t.Valid()
    ensures u.Valid()
  {
    if calls == [] then t else Step(Run(t, calls[..|calls| - 1]), calls[|calls| - 1])
  }

  /** Any run of calls does to the buffer what it does to the byte sequence, with the cursor never past what was written
      and that never past the memory. */
  method Perform(b: Buffer, calls: seq<Call>)
    requires b.Valid()
    modifies b, b.buffer
    ensures b.Valid() && b.Contents() == Run(old(b.Contents()), calls)
  {
    ghost var before := b.Contents();
    for i := 0 to |calls|
      invariant b.Valid() && (b.buffer == old(b.buffer) || fresh(b.buffer))
      invariant b.Contents() == Run(before, calls[..i])
    {
      assert calls[..i + 1][..i] == calls[..i];
      match calls[i] {
        case Write(data) => { var n := b.Write(data); }
        case Seek(position) => { var ok := b.Seek(position); }
        case Read(count, into) => { var data, n := b.Read(count, into); }
      }
    }
    assert calls[..|calls|] == calls;
  }

  /** Writing twice is writing once. */
  lemma {:induction false} WrittenTwice(t: Tape, a: seq<byte>, b: seq<byte>)
    requires t.Valid()
    ensures t.Written(a).Written(b) == t.Written(a + b)
    ensures t.Written([]) == t
  {
    var once, twice := t.Written(a), t.Written(a).Written(b);
    assert once.bytes[..once.cursor] == t.bytes[..t.cursor] + a;
    assert t.Written([]).bytes == t.bytes;
    assert twice.bytes == t.Written(a + b).bytes;
  }

  /** What was written can be read back from where it was written. */
  lemma {:induction false} ReadsBack(t: Tape, data: seq<byte>)
    requires t.Valid()
    ensures var u := t.Written(data).Moved(t.cursor);
            u.cursor == t.cursor && u.Readable(|data|) == |data| && u.bytes[t.cursor..t.cursor + |data|] == data
  {}

  function Concatenated(parts: seq<seq<byte>>): seq<byte> {
    if parts == [] then [] else Concatenated(parts[..|parts| - 1]) + parts[|parts| - 1]
  }

  /** Writes alone, from an empty buffer, leave their data in order. */
  lemma {:induction false} WritesAppend(parts: seq<seq<byte>>)
    ensures Run(Tape([], 0), seq(|parts|, i requires 0 <= i < |parts| => Write(Some(parts[i])))) ==
            Tape(Concatenated(parts), |Concatenated(parts)|)
  {
    var calls := seq(|parts|, i requires 0 <= i < |parts| => Write(Some(parts[i])));
    if parts != [] {
      var init := parts[..|parts| - 1];
      WritesAppend(init);
      assert calls[..|parts| - 1] == seq(|init|, i requires 0 <= i < |init| => Write(Some(init[i])));
    }
  }
}
