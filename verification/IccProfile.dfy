// Reassembling a colour profile that a JPEG file carries in numbered chunks.

module IccProfile {
  import opened Options
  import opened Memory

  /** A saved marker: its code and its data. */
  datatype Marker = Marker(code: byte, data: seq<byte>)

  const APP2: byte := 0xE2
  const OVERHEAD: nat := 14
  const MAX_SEQ_NO: nat := 255

  /** The identifying string, with its terminating zero. */
  const ICC_PROFILE: seq<byte> := [0x49, 0x43, 0x43, 0x5F, 0x50, 0x52, 0x4F, 0x46, 0x49, 0x4C, 0x45, 0x0]

  predicate IsIcc(m: Marker) {
    m.code == APP2 && |m.data| >= OVERHEAD && m.data[..12] == ICC_PROFILE
  }

  /** A chunk of a profile: its number, how many there are, its part of the profile. */
  datatype Chunk = Chunk(number: byte, count: byte, payload: seq<byte>)

  function ChunkOf(m: Marker): Chunk
    requires IsIcc(m)
  {
    Chunk(m.data[12], m.data[13], m.data[OVERHEAD..])
  }

  function Chunks(markers: seq<Marker>): (cs: seq<Chunk>)
    ensures |cs| <= |markers|
  {
    if markers == [] then []
    else
      var last := markers[|markers| - 1];
      Chunks(markers[..|markers| - 1]) + if IsIcc(last) then [ChunkOf(last)] else []
  }

  /** How many chunks the first one says there are. */
  function Count(cs: seq<Chunk>): nat {
    if cs == [] then 0 else cs[0].count
  }

  /** Agreed on their count, numbered within it, no number twice. */
  ghost predicate Numbered(cs: seq<Chunk>) {
    && (forall i :: 0 <= i < |cs| ==> cs[i].count as nat == Count(cs) && 1 <= cs[i].number as nat <= Count(cs))
    && (forall i, j :: 0 <= i < j < |cs| ==> cs[i].number != cs[j].number)
  }

  ghost predicate Present(cs: seq<Chunk>, s: nat) {
    exists i :: 0 <= i < |cs| && cs[i].number as nat == s
  }

  /** There is a chunk for each of the numbers 1 to their count, exactly one. */
  ghost predicate Complete(cs: seq<Chunk>) {
    Count(cs) >= 1 && Numbered(cs) && forall s: nat :: 1 <= s <= Count(cs) ==> Present(cs, s)
  }

  /** The part of the profile with this number. */
  ghost function Payload(cs: seq<Chunk>, s: nat): seq<byte> {
    if Present(cs, s) then
      var i :| 0 <= i < |cs| && cs[i].number as nat == s;
      cs[i].payload
    else []
  }

  lemma {:induction false} PayloadIs(cs: seq<Chunk>, i: nat)
    requires Numbered(cs) && i < |cs|
    ensures Present(cs, cs[i].number) && Payload(cs, cs[i].number) == cs[i].payload
  {}

  /** The parts numbered 1 to n, one after the other. */
  ghost function Assembled(cs: seq<Chunk>, n: nat): seq<byte> {
    if n == 0 then [] else Assembled(cs, n - 1) + Payload(cs, n)
  }

  /** Where part s begins and the profile with it. */
  lemma {:induction false} PartWithin(cs: seq<Chunk>, s: nat, n: nat)
    requires 1 <= s <= n
    ensures |Assembled(cs, s)| == |Assembled(cs, s - 1)| + |Payload(cs, s)| <= |Assembled(cs, n)|
    ensures Assembled(cs, n)[|Assembled(cs, s - 1)|..|Assembled(cs, s)|] == Payload(cs, s)
  {
    hide Payload;
    if s < n {
      PartWithin(cs, s, n - 1);
      Prefix(Assembled(cs, n - 1), Payload(cs, n), |Assembled(cs, s - 1)|, |Assembled(cs, s)|);
    }
  }

  lemma {:induction false} Prefix(a: seq<byte>, b: seq<byte>, from: nat, until: nat)
    requires from <= until <= |a|
    ensures (a + b)[from..until] == a[from..until]
  {}

  // ---------- order does not matter ----------

  ghost predicate SameChunks(cs: seq<Chunk>, ds: seq<Chunk>) {
    multiset(cs) == multiset(ds)
  }

  lemma {:induction false} Has(cs: seq<Chunk>, ds: seq<Chunk>, i: nat) returns (j: nat)
    requires SameChunks(cs, ds) && i < |cs|
    ensures j < |ds| && ds[j] == cs[i]
  {
    assert cs[i] in multiset(cs);
    assert cs[i] in multiset(ds);
    j :| 0 <= j < |ds| && ds[j] == cs[i];
  }

  /** A chunk that occurs twice in one order occurs twice in every order. */
  lemma {:induction false} NoneTwice(cs: seq<Chunk>, i: nat, j: nat)
    requires i < j < |cs| && cs[i] == cs[j]
    ensures multiset(cs)[cs[i]] >= 2
  {
    assert cs == cs[..j] + [cs[j]] + cs[j + 1..];
    assert cs[i] in multiset(cs[..j]);
  }

  lemma {:induction false} OnceWhenDistinct(cs: seq<Chunk>, i: nat)
    requires i < |cs| && forall k, l :: 0 <= k < l < |cs| ==> cs[k].number != cs[l].number
    ensures multiset(cs)[cs[i]] == 1
  {
    assert cs == cs[..i] + [cs[i]] + cs[i + 1..];
    assert cs[i] !in multiset(cs[..i]) && cs[i] !in multiset(cs[i + 1..]);
  }

  lemma {:induction false} NumberedAnyOrder(cs: seq<Chunk>, ds: seq<Chunk>)
    requires SameChunks(cs, ds) && Numbered(cs)
    ensures Numbered(ds) && Count(ds) == Count(cs)
  {
    assert |cs| == |multiset(cs)| == |multiset(ds)| == |ds|;
    if ds != [] { var k := Has(ds, cs, 0); }
    forall i | 0 <= i < |ds| ensures ds[i].count as nat == Count(ds) && 1 <= ds[i].number as nat <= Count(ds) {
      var k := Has(ds, cs, i);
    }
    forall i, j | 0 <= i < j < |ds| ensures ds[i].number != ds[j].number {
      var k := Has(ds, cs, i);
      var l := Has(ds, cs, j);
      if ds[i] == ds[j] {
        NoneTwice(ds, i, j);
        OnceWhenDistinct(cs, k);
        assert false;
      }
    }
  }

  /** The profile does not depend on the order the chunks come in. */
  lemma {:induction false} AnyOrder(cs: seq<Chunk>, ds: seq<Chunk>)
    requires SameChunks(cs, ds)
    ensures Complete(cs) <==> Complete(ds)
    ensures Complete(cs) ==> Assembled(cs, Count(cs)) == Assembled(ds, Count(ds))
  {
    if Complete(cs) { CompleteAnyOrder(cs, ds); }
    if Complete(ds) { CompleteAnyOrder(ds, cs); }
  }

  lemma {:induction false} CompleteAnyOrder(cs: seq<Chunk>, ds: seq<Chunk>)
    requires SameChunks(cs, ds) && Complete(cs)
    ensures Complete(ds) && Assembled(cs, Count(cs)) == Assembled(ds, Count(ds))
  {
    NumberedAnyOrder(cs, ds);
    forall s: nat | 1 <= s <= Count(cs) ensures Present(ds, s) && Payload(ds, s) == Payload(cs, s) {
      assert Present(cs, s);
      var i :| 0 <= i < |cs| && cs[i].number as nat == s;
      var j := Has(cs, ds, i);
      PayloadIs(cs, i);
      PayloadIs(ds, j);
    }
    SamePayloads(cs, ds, Count(cs));
  }

  lemma {:induction false} SamePayloads(cs: seq<Chunk>, ds: seq<Chunk>, n: nat)
    requires forall s: nat :: 1 <= s <= n ==> Payload(ds, s) == Payload(cs, s)
    ensures Assembled(cs, n) == Assembled(ds, n)
  {
    if n > 0 { SamePayloads(cs, ds, n - 1); }
  }

  // ---------- splitting ----------

  function Joined(parts: seq<seq<byte>>): seq<byte> {
    if parts == [] then [] else Joined(parts[..|parts| - 1]) + parts[|parts| - 1]
  }

  /** The chunks of a profile split into 1 to 255 parts. */
  function Split(parts: seq<seq<byte>>): (cs: seq<Chunk>)
    requires 1 <= |parts| <= 255
    ensures |cs| == |parts| && forall i :: 0 <= i < |parts| ==> cs[i] == Chunk(i + 1, |parts|, parts[i])
  {
    seq(|parts|, i requires 0 <= i < |parts| => Chunk(i + 1, |parts|, parts[i]))
  }

  lemma {:induction false} SplitAssembles(parts: seq<seq<byte>>, n: nat)
    requires 1 <= |parts| <= 255 && n <= |parts|
    ensures Assembled(Split(parts), n) == Joined(parts[..n])
  {
    if n > 0 {
      SplitAssembles(parts, n - 1);
      PayloadIs(Split(parts), n - 1);
      assert parts[..n][..n - 1] == parts[..n - 1];
    }
  }

  /** Splitting a profile into parts and putting them together in any order gives the profile. */
  lemma {:induction false} SplitAndBack(parts: seq<seq<byte>>, shuffled: seq<Chunk>)
    requires 1 <= |parts| <= 255 && SameChunks(Split(parts), shuffled)
    ensures Complete(shuffled) && Assembled(shuffled, Count(shuffled)) == Joined(parts)
  {
    var cs := Split(parts);
    forall s: nat | 1 <= s <= Count(cs) ensures Present(cs, s) { PayloadIs(cs, s - 1); }
    SplitAssembles(parts, |parts|);
    assert parts[..|parts|] == parts;
    AnyOrder(cs, shuffled);
  }

  // ---------- markers ----------

  /** A marker that carries a part of a profile, as it is written: APP2, the identifier, the part's number, how many
      parts there are, and the part. */
  function ProfileMarker(number: byte, count: byte, part: seq<byte>): Marker {
    Marker(0xE2, [0x49, 0x43, 0x43, 0x5F, 0x50, 0x52, 0x4F, 0x46, 0x49, 0x4C, 0x45, 0x0] + [number, count] + part)
  }

  ghost predicate OfProfile(m: Marker) {
    exists number: byte, count: byte, part: seq<byte> :: m == ProfileMarker(number, count, part)
  }

  /** The markers of a profile written in 1 to 255 parts. */
  function Written(parts: seq<seq<byte>>): (markers: seq<Marker>)
    requires 1 <= |parts| <= 255
    ensures |markers| == |parts|
    ensures forall i :: 0 <= i < |parts| ==> markers[i] == ProfileMarker(i + 1, |parts|, parts[i])
  {
    seq(|parts|, i requires 0 <= i < |parts| => ProfileMarker(i + 1, |parts|, parts[i]))
  }

  /** Of all markers of profiles a file has those of these parts, each as often as they have it; in what order, and what
      other markers there are, is left open. */
  ghost predicate Carries(markers: seq<Marker>, parts: seq<seq<byte>>) {
    1 <= |parts| <= 255 && forall m :: OfProfile(m) ==> multiset(markers)[m] == multiset(Written(parts))[m]
  }

  /** So it is when they are mixed with any others in any order. */
  lemma {:induction false} MixedCarries(markers: seq<Marker>, parts: seq<seq<byte>>, others: seq<Marker>)
    requires 1 <= |parts| <= 255 && (forall i :: 0 <= i < |others| ==> !OfProfile(others[i]))
    requires multiset(markers) == multiset(Written(parts) + others)
    ensures Carries(markers, parts)
  {
    hide OfProfile;
    forall m | OfProfile(m) ensures multiset(markers)[m] == multiset(Written(parts))[m] {
      assert m !in multiset(others);
      assert multiset(Written(parts) + others) == multiset(Written(parts)) + multiset(others);
    }
  }

  lemma {:induction false} MarkerBytes(number: byte, count: byte, part: seq<byte>)
    ensures var m := ProfileMarker(number, count, part); IsIcc(m) && ChunkOf(m) == Chunk(number, count, part)
  {}

  lemma {:induction false} IccIsOfProfile(m: Marker)
    requires IsIcc(m)
    ensures m == ProfileMarker(ChunkOf(m).number, ChunkOf(m).count, ChunkOf(m).payload)
  {
    assert m.data == m.data[..12] + [m.data[12], m.data[13]] + m.data[14..];
  }

  /** The marker that a chunk comes from. */
  function MarkerOf(c: Chunk): Marker {
    ProfileMarker(c.number, c.count, c.payload)
  }

  /** Chunks are as many as their markers. */
  lemma {:induction false} ChunkCounts(markers: seq<Marker>, c: Chunk)
    ensures multiset(Chunks(markers))[c] == multiset(markers)[MarkerOf(c)]
  {
    hide IsIcc, ChunkOf, ProfileMarker;
    if markers != [] {
      var n, last := |markers| - 1, markers[|markers| - 1];
      ChunkCounts(markers[..n], c);
      assert markers == markers[..n] + [last];
      MarkerBytes(c.number, c.count, c.payload);
      if IsIcc(last) { IccIsOfProfile(last); }
    }
  }

  lemma {:induction false} WrittenChunks(parts: seq<seq<byte>>, k: nat)
    requires 1 <= |parts| <= 255 && k <= |parts|
    ensures Chunks(Written(parts)[..k]) == Split(parts)[..k]
  {
    hide IsIcc, ChunkOf, ProfileMarker;
    if k > 0 {
      WrittenChunks(parts, k - 1);
      NextMarker(Written(parts), k - 1);
      MarkerBytes(k, |parts|, parts[k - 1]);
    }
  }

  lemma {:induction false} WrittenCounts(parts: seq<seq<byte>>, c: Chunk)
    requires 1 <= |parts| <= 255
    ensures multiset(Split(parts))[c] == multiset(Written(parts))[MarkerOf(c)]
  {
    WrittenChunks(parts, |parts|);
    assert Written(parts)[..|parts|] == Written(parts) && Split(parts)[..|parts|] == Split(parts);
    ChunkCounts(Written(parts), c);
  }

  /** A file that carries a profile's parts has their chunks, and they make up the profile. */
  lemma {:induction false} CarriedIs(markers: seq<Marker>, parts: seq<seq<byte>>)
    requires Carries(markers, parts)
    ensures Complete(Chunks(markers)) && Assembled(Chunks(markers), Count(Chunks(markers))) == Joined(parts)
  {
    hide Chunks, ProfileMarker, Complete, Assembled;
    forall c ensures multiset(Chunks(markers))[c] == multiset(Split(parts))[c] {
      ChunkCounts(markers, c);
      WrittenCounts(parts, c);
      assert OfProfile(MarkerOf(c)) by { assert MarkerOf(c) == ProfileMarker(c.number, c.count, c.payload); }
    }
    assert multiset(Split(parts)) == multiset(Chunks(markers));
    SplitAndBack(parts, Chunks(markers));
  }

  ghost function Parts(cs: seq<Chunk>): (parts: seq<seq<byte>>)
    ensures |parts| == Count(cs) && forall i :: 0 <= i < Count(cs) ==> parts[i] == Payload(cs, i + 1)
  {
    seq(Count(cs), i requires 0 <= i < Count(cs) => Payload(cs, i + 1))
  }

  /** Complete chunks are those of their parts. */
  lemma {:induction false} CompleteIsSplit(cs: seq<Chunk>, c: Chunk)
    requires Complete(cs) && Count(cs) <= 255
    ensures multiset(cs)[c] == multiset(Split(Parts(cs)))[c]
  {
    hide Payload;
    var ds := Split(Parts(cs));
    if c in cs {
      var i :| 0 <= i < |cs| && cs[i] == c;
      PayloadIs(cs, i);
      assert ds[c.number - 1] == c;
      OnceWhenDistinct(cs, i);
      OnceWhenDistinct(ds, c.number - 1);
    } else if c in ds {
      var j :| 0 <= j < |ds| && ds[j] == c;
      assert Present(cs, j + 1);
      var i :| 0 <= i < |cs| && cs[i].number as nat == j + 1;
      PayloadIs(cs, i);
    }
  }

  /** A file whose chunks are complete carries the parts of a profile. */
  lemma {:induction false} CompleteCarries(markers: seq<Marker>)
    requires Complete(Chunks(markers))
    ensures exists parts :: Carries(markers, parts)
  {
    hide Chunks, ProfileMarker, IsIcc, Payload;
    var cs := Chunks(markers);
    CountIsByte(cs);
    var parts := Parts(cs);
    forall m | OfProfile(m) ensures multiset(markers)[m] == multiset(Written(parts))[m] {
      var number: byte, count: byte, part: seq<byte> :| m == ProfileMarker(number, count, part);
      var c := Chunk(number, count, part);
      ChunkCounts(markers, c);
      WrittenCounts(parts, c);
      CompleteIsSplit(cs, c);
    }
    assert Carries(markers, parts);
  }

  lemma {:induction false} CountIsByte(cs: seq<Chunk>)
    ensures Count(cs) <= 255
  {}

  // ---------- reading ----------

  /** Chunks of one marker more. */
  lemma {:induction false} NextMarker(markers: seq<Marker>, k: nat)
    requires k < |markers|
    ensures Chunks(markers[..k + 1]) == Chunks(markers[..k]) + if IsIcc(markers[k]) then [ChunkOf(markers[k])] else []
  {
    assert markers[..k + 1][..k] == markers[..k];
  }

  /** The tables of the first pass describe the chunks seen. */
  ghost predicate Seen(cs: seq<Chunk>, numMarkers: nat, present: array<bool>, length: array<nat>)
    requires present.Length == length.Length == MAX_SEQ_NO + 1
    reads present, length
  {
    && numMarkers == Count(cs) && Numbered(cs)
    && (forall s :: 1 <= s <= MAX_SEQ_NO ==> (present[s] <==> Present(cs, s)))
    && (forall i :: 0 <= i < |cs| ==> length[cs[i].number] == |cs[i].payload|)
  }

  /** What is wrong with a chunk after well-numbered ones stays wrong. */
  lemma {:induction false} BadStays(cs: seq<Chunk>, c: Chunk, more: seq<Chunk>)
    requires Numbered(cs)
    requires (cs != [] && c.count as nat != Count(cs)) || c.number == 0 || c.number as nat > Count(cs + [c])
      || Present(cs, c.number)
    ensures !Numbered(cs + [c] + more)
  {
    var all := cs + [c] + more;
    assert all[|cs|] == c;
    if cs != [] { assert all[0] == cs[0]; }
    if Present(cs, c.number) {
      var i :| 0 <= i < |cs| && cs[i].number == c.number;
      assert all[i].number == all[|cs|].number;
    }
  }

  /** The chunks of all markers begin with those of the first ones. */
  lemma {:induction false} ChunksExtend(markers: seq<Marker>, k: nat) returns (more: seq<Chunk>)
    requires k <= |markers|
    ensures Chunks(markers) == Chunks(markers[..k]) + more
    decreases |markers| - k
  {
    if k == |markers| {
      more := [];
      assert markers[..k] == markers;
    } else {
      NextMarker(markers, k);
      more := ChunksExtend(markers, k + 1);
      more := (if IsIcc(markers[k]) then [ChunkOf(markers[k])] else []) + more;
    }
  }

  /** The first pass: checks the numbering and notes the lengths. */
  method Check(markers: seq<Marker>, present: array<bool>, length: array<nat>) returns (ok: bool, numMarkers: nat)
    requires present.Length == length.Length == MAX_SEQ_NO + 1
    modifies present, length
    ensures ok <==> Numbered(Chunks(markers))
    ensures ok ==> Seen(Chunks(markers), numMarkers, present, length)
  {
    for s := 1 to MAX_SEQ_NO + 1
      invariant forall r :: 1 <= r < s ==> !present[r]
    {
      present[s] := false;
    }
    numMarkers := 0;
    for k := 0 to |markers|
      invariant Seen(Chunks(markers[..k]), numMarkers, present, length)
    {
      NextMarker(markers, k);
      if IsIcc(markers[k]) {
        ghost var cs := Chunks(markers[..k]);
        var bad: bool;
        bad, numMarkers := CheckChunk(ChunkOf(markers[k]), cs, numMarkers, present, length);
        if bad {
          ghost var more := ChunksExtend(markers, k + 1);
          BadStays(cs, ChunkOf(markers[k]), more);
          return false, numMarkers;
        }
      } else {
        assert Chunks(markers[..k + 1]) == Chunks(markers[..k]);
      }
    }
    assert markers[..|markers|] == markers;
    ok := true;
  }

  /** One chunk: its count must agree, its number be new and within the count. */
  method CheckChunk(c: Chunk, ghost cs: seq<Chunk>, numMarkers: nat, present: array<bool>, length: array<nat>)
    returns (bad: bool, next: nat)
    requires present.Length == length.Length == MAX_SEQ_NO + 1 && Seen(cs, numMarkers, present, length)
    modifies present, length
    ensures bad <==>
      (cs != [] && c.count as nat != Count(cs)) || c.number == 0 || c.number as nat > Count(cs + [c])
        || Present(cs, c.number)
    ensures !bad ==> Seen(cs + [c], next, present, length)
  {
    next := numMarkers;
    CountPositive(cs);
    if next == 0 {
      next := c.count;
    } else if next != c.count {
      return true, next;
    }
    if c.number == 0 || c.number as nat > next { return true, next; }
    if present[c.number] { return true, next; }
    present[c.number] := true;
    length[c.number] := |c.payload|;
    bad := false;
    NumberedNext(cs, c);
  }

  lemma {:induction false} CountPositive(cs: seq<Chunk>)
    requires Numbered(cs)
    ensures Count(cs) == 0 <==> cs == []
  {}

  lemma {:induction false} NumberedNext(cs: seq<Chunk>, c: Chunk)
    requires Numbered(cs) && (cs != [] ==> c.count as nat == Count(cs)) && 1 <= c.number as nat <= Count(cs + [c])
      && !Present(cs, c.number)
    ensures Numbered(cs + [c]) && forall s: nat :: Present(cs + [c], s) <==> Present(cs, s) || s == c.number as nat
  {
    var all := cs + [c];
    if cs != [] { assert all[0] == cs[0]; }
    forall s: nat ensures Present(all, s) <==> Present(cs, s) || s == c.number as nat {
      if Present(cs, s) {
        var i :| 0 <= i < |cs| && cs[i].number as nat == s;
        assert all[i].number as nat == s;
      }
      if s == c.number as nat { assert all[|cs|].number as nat == s; }
    }
  }

  lemma {:induction false} LengthThere(cs: seq<Chunk>, s: nat, present: array<bool>, length: array<nat>)
    requires present.Length == length.Length == MAX_SEQ_NO + 1 && 1 <= s <= MAX_SEQ_NO
    requires Seen(cs, Count(cs), present, length)
    ensures present[s] <==> Present(cs, s)
    ensures present[s] ==> length[s] == |Payload(cs, s)|
  {
    if present[s] {
      var i :| 0 <= i < |cs| && cs[i].number as nat == s;
      PayloadIs(cs, i);
    }
  }

  lemma {:induction false} AssembledNext(cs: seq<Chunk>, s: nat)
    ensures |Assembled(cs, 0)| == 0
    ensures s >= 1 ==> |Assembled(cs, s)| == |Assembled(cs, s - 1)| + |Payload(cs, s)|
  {}

  lemma {:induction false} SeenCount(cs: seq<Chunk>, numMarkers: nat, present: array<bool>, length: array<nat>)
    requires present.Length == length.Length == MAX_SEQ_NO + 1 && Seen(cs, numMarkers, present, length)
    ensures numMarkers == Count(cs) && Numbered(cs)
  {}

  lemma {:induction false} Missing(cs: seq<Chunk>, s: nat)
    requires 1 <= s <= Count(cs) && !Present(cs, s)
    ensures !Complete(cs)
  {}

  lemma {:induction false} NoneMissing(cs: seq<Chunk>)
    requires Count(cs) >= 1 && Numbered(cs) && forall s: nat :: 1 <= s <= Count(cs) ==> Present(cs, s)
    ensures Complete(cs)
  {}

  /** The second pass: no number may be missing; parts lie one behind the other. */
  method Place(ghost cs: seq<Chunk>, numMarkers: nat, present: array<bool>, length: array<nat>, offset: array<nat>)
    returns (ok: bool, total: nat)
    requires present.Length == length.Length == offset.Length == MAX_SEQ_NO + 1 && offset != length
    requires Seen(cs, numMarkers, present, length) && 1 <= numMarkers <= MAX_SEQ_NO
    modifies offset
    ensures ok <==> Complete(cs)
    ensures ok ==> total == |Assembled(cs, numMarkers)|
    ensures ok ==> forall s :: 1 <= s <= numMarkers ==> offset[s] == |Assembled(cs, s - 1)|
  {
    hide Seen, Present, Payload, Assembled, Complete;
    SeenCount(cs, numMarkers, present, length);
    AssembledNext(cs, 0);
    total := 0;
    for s: nat := 1 to numMarkers + 1
      invariant forall r: nat :: 1 <= r < s ==> Present(cs, r) && offset[r] == |Assembled(cs, r - 1)|
      invariant total == |Assembled(cs, s - 1)|
    {
      LengthThere(cs, s, present, length);
      AssembledNext(cs, s);
      if !present[s] {
        Missing(cs, s);
        return false, total;
      }
      offset[s] := total;
      total := total + length[s];
    }
    NoneMissing(cs);
    ok := true;
  }

  /** The parts of these chunks are in their places. */
  ghost predicate Filled(data: seq<byte>, cs: seq<Chunk>, n: nat)
    requires n <= |cs|
  {
    forall i :: 0 <= i < n ==> PartThere(data, cs, cs[i].number, cs[i].payload)
  }

  ghost predicate PartThere(data: seq<byte>, cs: seq<Chunk>, s: nat, part: seq<byte>) {
    s >= 1 && |Assembled(cs, s - 1)| + |part| <= |data|
      && data[|Assembled(cs, s - 1)|..|Assembled(cs, s - 1)| + |part|] == part
  }

  /** Writing one part leaves the others. */
  lemma {:induction false} OtherPartStays(before: seq<byte>, after: seq<byte>, cs: seq<Chunk>, i: nat, j: nat)
    requires Numbered(cs) && i < |cs| && j < |cs| && i != j && |before| == |after|
    requires var at := |Assembled(cs, cs[j].number - 1)|;
      forall k :: 0 <= k < |before| && !(at <= k < at + |cs[j].payload|) ==> after[k] == before[k]
    requires PartThere(before, cs, cs[i].number, cs[i].payload)
    ensures PartThere(after, cs, cs[i].number, cs[i].payload)
  {
    hide Assembled, Payload;
    PayloadIs(cs, i);
    PayloadIs(cs, j);
    var s, t := cs[i].number as nat, cs[j].number as nat;
    if s < t { PartWithin(cs, s, t - 1); } else { PartWithin(cs, t, s - 1); }
    PartWithin(cs, s, s);
    PartWithin(cs, t, t);
    SameSlice(before, after, |Assembled(cs, s - 1)|, |cs[i].payload|);
  }

  lemma {:induction false} SameSlice(before: seq<byte>, after: seq<byte>, at: nat, n: nat)
    requires |before| == |after| && at + n <= |after| && forall k :: at <= k < at + n ==> after[k] == before[k]
    ensures after[at..at + n] == before[at..at + n]
  {}

  /** Writes a part where it belongs. */
  method CopyPart(data: array<byte>, at: nat, part: seq<byte>)
    requires at + |part| <= data.Length
    modifies data
    ensures data[at..at + |part|] == part
    ensures forall k :: 0 <= k < data.Length && !(at <= k < at + |part|) ==> data[k] == old(data[k])
  {
    for k := 0 to |part|
      invariant data[at..at + k] == part[..k]
      invariant forall m :: 0 <= m < data.Length && !(at <= m < at + k) ==> data[m] == old(data[m])
    {
      data[at + k] := part[k];
    }
  }

  /** With every part in place the data is the profile. */
  lemma {:induction false} FilledIsAssembled(data: seq<byte>, cs: seq<Chunk>, n: nat)
    requires Complete(cs) && Filled(data, cs, |cs|) && n <= Count(cs)
    ensures |Assembled(cs, n)| <= |data| && data[..|Assembled(cs, n)|] == Assembled(cs, n)
  {
    hide Assembled, Payload, Numbered, PartThere;
    AssembledNext(cs, n);
    if n == 0 {
      assert Assembled(cs, 0) == [];
    } else {
      FilledIsAssembled(data, cs, n - 1);
      assert Present(cs, n);
      var i :| 0 <= i < |cs| && cs[i].number as nat == n;
      PayloadIs(cs, i);
      assert PartThere(data, cs, cs[i].number, cs[i].payload);
      PartAppends(data, cs, n, cs[i].payload);
    }
  }

  lemma {:induction false} PartAppends(data: seq<byte>, cs: seq<Chunk>, n: nat, part: seq<byte>)
    requires n >= 1 && part == Payload(cs, n) && PartThere(data, cs, n, part) && |Assembled(cs, n - 1)| <= |data|
    requires data[..|Assembled(cs, n - 1)|] == Assembled(cs, n - 1)
    ensures |Assembled(cs, n)| <= |data| && data[..|Assembled(cs, n)|] == Assembled(cs, n)
  {
    var at := |Assembled(cs, n - 1)|;
    assert data[..at + |part|] == data[..at] + data[at..at + |part|];
  }

  lemma {:induction false} NothingFilled(data: seq<byte>, cs: seq<Chunk>)
    ensures Filled(data, cs, 0)
  {}

  /** With one more part in its place. */
  lemma {:induction false} NextFilled(before: seq<byte>, after: seq<byte>, cs: seq<Chunk>, n: nat)
    requires Numbered(cs) && n < |cs| && Filled(before, cs, n) && |before| == |after|
    requires var at := |Assembled(cs, cs[n].number - 1)|;
             && at + |cs[n].payload| <= |after| && after[at..at + |cs[n].payload|] == cs[n].payload
             && forall k :: 0 <= k < |after| && !(at <= k < at + |cs[n].payload|) ==> after[k] == before[k]
    ensures Filled(after, cs, n + 1)
  {
    hide Assembled;
    forall i | 0 <= i < n ensures PartThere(after, cs, cs[i].number, cs[i].payload) {
      OtherPartStays(before, after, cs, i, n);
    }
  }

  /** The third pass: each part goes to its place. */
  method Fill(markers: seq<Marker>, offset: array<nat>, data: array<byte>)
    requires offset.Length == MAX_SEQ_NO + 1 && Complete(Chunks(markers))
    requires var cs := Chunks(markers);
             && data.Length == |Assembled(cs, Count(cs))|
             && Count(cs) <= MAX_SEQ_NO && forall s :: 1 <= s <= Count(cs) ==> offset[s] == |Assembled(cs, s - 1)|
    modifies data
    ensures data[..] == Assembled(Chunks(markers), Count(Chunks(markers)))
  {
    hide Assembled, Payload, IsIcc, Filled, PartThere;
    ghost var cs := Chunks(markers);
    NothingFilled(data[..], cs);
    for k := 0 to |markers|
      invariant |Chunks(markers[..k])| <= |cs| && Chunks(markers[..k]) == cs[..|Chunks(markers[..k])|]
      invariant Filled(data[..], cs, |Chunks(markers[..k])|)
    {
      ghost var n, before := |Chunks(markers[..k])|, data[..];
      NextMarker(markers, k);
      ghost var more := ChunksExtend(markers, k + 1);
      if IsIcc(markers[k]) {
        var c := ChunkOf(markers[k]);
        assert cs[n] == c;
        PayloadIs(cs, n);
        PartWithin(cs, c.number, Count(cs));
        CopyPart(data, offset[c.number], c.payload);
        NextFilled(before, data[..], cs, n);
      }
    }
    assert markers[..|markers|] == markers;
    FilledIsAssembled(data[..], cs, Count(cs));
  }

  /** The profile of a file, if its chunks are complete and not all empty, and there is memory for it: the parts written
      into the file's markers joined again, and nothing for a file that does not carry the parts of one profile. */
  method ReadIccProfile(markers: seq<Marker>, memory: bool) returns (profile: Option<seq<byte>>)
    ensures forall parts :: Carries(markers, parts) ==>
      profile == if Joined(parts) != [] && memory then Some(Joined(parts)) else None
    ensures profile.Some? ==> exists parts :: Carries(markers, parts)
    ensures var cs := Chunks(markers);
      profile ==
      if Complete(cs) && |Assembled(cs, Count(cs))| > 0 && memory then Some(Assembled(cs, Count(cs))) else None
  {
    hide Assembled, Payload, Numbered, Chunks, Carries, Joined;
    ghost var cs := Chunks(markers);
    forall parts | Carries(markers, parts) ensures Complete(cs) && Assembled(cs, Count(cs)) == Joined(parts) {
      CarriedIs(markers, parts);
    }
    if Complete(cs) { CompleteCarries(markers); }
    var present, length := new bool[MAX_SEQ_NO + 1](_ => false), new nat[MAX_SEQ_NO + 1](_ => 0);
    var offset := new nat[MAX_SEQ_NO + 1](_ => 0);
    var ok, numMarkers := Check(markers, present, length);
    if !ok { return None; }
    if numMarkers == 0 { return None; }
    var total;
    ok, total := Place(cs, numMarkers, present, length, offset);
    if !ok { return None; }
    if total <= 0 { return None; }
    if !memory { return None; }
    var data := new byte[total](_ => 0);
    Fill(markers, offset, data);
    return Some(data[..]);
  }
}
