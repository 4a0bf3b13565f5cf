/** reportman_mon's walk over a buffer of inotify events: IN_EVENT_OK and IN_EVENT_NEXT. */
module EventWalk {
  import opened Bytes

  const HEADER: nat := 16

  /** event->len of an event at `p`. */
  function LenAt(buffer: seq<Byte>, p: nat): nat
    requires p + HEADER <= |buffer|
  {
    Word32(buffer, p + 12)
  }

  /** IN_EVENT_OK, with `length` bytes left from `p`. */
  predicate EventOk(buffer: seq<Byte>, p: nat, length: int)
    requires p + length <= |buffer|
  {
    length >= HEADER && LenAt(buffer, p) >= HEADER && LenAt(buffer, p) <= length
  }

  /** The offsets of the events the walk visits. IN_EVENT_NEXT advances by len alone. */
  function Offsets(buffer: seq<Byte>, p: nat, length: int): seq<nat>
    requires p + length <= |buffer|
    decreases length
  {
    if !EventOk(buffer, p, length) then [] else
      var len := LenAt(buffer, p);
      [p] + Offsets(buffer, p + len, length - len)
  }

  /** The loop over what one read delivered. Every header it looks at is inside the buffer,
      and there are at most length / 16 of them. */
  method WalkEvents(buffer: array<Byte>, read: int) returns (visited: seq<nat>)
    requires read <= buffer.Length
    ensures read > 0 ==> visited == Offsets(buffer[..], 0, read)
    ensures read <= 0 ==> visited == []
    ensures HEADER * |visited| <= if read > 0 then read else 0
    ensures forall v | v in visited :: v + HEADER <= read
  {
    visited := [];
    if read <= 0 {
      return;
    }
    var event, length: int := 0, read;
    ghost var data := buffer[..];
    while length >= HEADER && LenAt(buffer[..], event) >= HEADER && LenAt(buffer[..], event) <= length
      invariant 0 <= event && event + length == read && length >= 0
      invariant visited + Offsets(data, event, length) == Offsets(data, 0, read)
      invariant HEADER * |visited| + length <= read
      invariant forall v | v in visited :: v + HEADER <= read
      decreases length
    {
      var len := LenAt(buffer[..], event);
      NextOffset(data, event, length, visited);
      visited := visited + [event];
      length := length - len;
      event := event + len;
    }
  }

  lemma NextOffset(buffer: seq<Byte>, p: nat, length: int, before: seq<nat>)
    requires p + length <= |buffer| && EventOk(buffer, p, length)
    ensures var len := LenAt(buffer, p);
      before + Offsets(buffer, p, length) == before + [p] + Offsets(buffer, p + len, length - len)
  {
  }

  /** struct inotify_event as it lies in the buffer: four words of four bytes, and the bytes
      behind them. */
  datatype Record = Record(wd: seq<Byte>, mask: seq<Byte>, cookie: seq<Byte>, len: seq<Byte>, body: seq<Byte>)

  predicate Fits(r: Record) {
    |r.wd| == |r.mask| == |r.cookie| == |r.len| == 4
  }

  function Wire(r: Record): seq<Byte> {
    r.wd + r.mask + r.cookie + r.len + r.body
  }

  function WireAll(records: seq<Record>): seq<Byte> {
    if records == [] then [] else Wire(records[0]) + WireAll(records[1..])
  }

  /** Where each of the records begins when they follow one another from `p` on. */
  function Starts(records: seq<Record>, p: nat): seq<nat> {
    if records == [] then [] else [p] + Starts(records[1..], p + HEADER + |records[0].body|)
  }

  /** What mt_event_process finds behind its pointer: the header, and the rest of the event. */
  function ReadAt(buffer: seq<Byte>, p: nat): Record
    requires p + HEADER <= |buffer| && HEADER <= LenAt(buffer, p) <= |buffer| - p
  {
    Record(buffer[p..p + 4], buffer[p + 4..p + 8], buffer[p + 8..p + 12], buffer[p + 12..p + 16],
           buffer[p + HEADER..p + LenAt(buffer, p)])
  }

  lemma WireFields(buffer: seq<Byte>, before: seq<Byte>, r: Record, after: seq<Byte>)
    requires Fits(r) && buffer == before + Wire(r) + after
    ensures var p := |before|;
      && p + HEADER + |r.body| + |after| == |buffer|
      && LenAt(buffer, p) == Word32(r.len, 0)
      && buffer[p..p + 4] == r.wd && buffer[p + 4..p + 8] == r.mask && buffer[p + 8..p + 12] == r.cookie
      && buffer[p + 12..p + 16] == r.len && buffer[p + HEADER..p + HEADER + |r.body|] == r.body
  {
    var p := |before|;
    assert buffer[p + 12..p + 16] == r.len;
    assert r.len[0..4] == r.len;
  }

  lemma {:induction false} StartsLength(records: seq<Record>, p: nat)
    ensures |Starts(records, p)| == |records|
  {
    if records != [] {
      StartsLength(records[1..], p + HEADER + |records[0].body|);
    }
  }

  // ---- records whose length field is their whole stride

  ghost predicate Strided(records: seq<Record>) {
    forall r | r in records :: Fits(r) && Word32(r.len, 0) == HEADER + |r.body|
  }

  /** The strides lead from `p`, record by record, to the end of the buffer. */
  predicate Laid(buffer: seq<Byte>, p: nat, records: seq<Record>)
    decreases |records|
  {
    if records == [] then p == |buffer| else
      var next := p + HEADER + |records[0].body|;
      next <= |buffer| && LenAt(buffer, p) == next - p && Laid(buffer, next, records[1..])
  }

  lemma StrideField(buffer: seq<Byte>, before: seq<Byte>, r: Record, rest: seq<Byte>)
    requires Fits(r) && Word32(r.len, 0) == HEADER + |r.body| && buffer == before + Wire(r) + rest
    ensures |before| + HEADER + |r.body| == |before + Wire(r)| <= |buffer|
    ensures LenAt(buffer, |before|) == HEADER + |r.body|
  {
    WireFields(buffer, before, r, rest);
  }

  lemma {:induction false} WireAllIsLaid(buffer: seq<Byte>, before: seq<Byte>, records: seq<Record>)
    requires Strided(records) && buffer == before + WireAll(records)
    ensures Laid(buffer, |before|, records)
    decreases |records|
  {
    if records != [] {
      var r, rest := records[0], WireAll(records[1..]);
      assert r in records && Strided(records[1..]);
      assert buffer == before + Wire(r) + rest;
      StrideField(buffer, before, r, rest);
      WireAllIsLaid(buffer, before + Wire(r), records[1..]);
    }
  }

  lemma OffsetsStep(buffer: seq<Byte>, p: nat, next: nat)
    requires p + HEADER <= next <= |buffer| && LenAt(buffer, p) == next - p
    ensures Offsets(buffer, p, |buffer| - p) == [p] + Offsets(buffer, next, |buffer| - next)
  {
  }

  lemma {:induction false} LaidOffsets(buffer: seq<Byte>, p: nat, records: seq<Record>)
    requires p <= |buffer| && Laid(buffer, p, records)
    ensures Offsets(buffer, p, |buffer| - p) == Starts(records, p)
    decreases |records|
  {
    if records != [] {
      var next, rest := p + HEADER + |records[0].body|, records[1..];
      OffsetsStep(buffer, p, next);
      LaidOffsets(buffer, next, rest);
    }
  }

  /** The event at `p` is the record `r`, field by field. */
  predicate ReadsBack(buffer: seq<Byte>, p: nat, r: Record) {
    && p + HEADER <= |buffer|
    && HEADER <= LenAt(buffer, p) <= |buffer| - p
    && ReadAt(buffer, p) == r
  }

  /** The `i`-th record is read back where it starts. */
  lemma {:induction false} StridedReads(before: seq<Byte>, records: seq<Record>, i: nat)
    requires Strided(records) && i < |records|
    ensures |Starts(records, |before|)| == |records|
    ensures ReadsBack(before + WireAll(records), Starts(records, |before|)[i], records[i])
    decreases |records|
  {
    var r, rest, buffer := records[0], WireAll(records[1..]), before + WireAll(records);
    assert buffer == before + Wire(r) + rest;
    StartsLength(records, |before|);
    if i == 0 {
      WireFields(buffer, before, r, rest);
    } else {
      StridedReads(before + Wire(r), records[1..], i - 1);
    }
  }

  /** On such records the walk undoes the writer: it visits each record at its start, in order,
      and reads back every field. */
  lemma StridedWalk(records: seq<Record>)
    requires Strided(records)
    ensures var buffer, starts := WireAll(records), Starts(records, 0);
      && Offsets(buffer, 0, |buffer|) == starts && |starts| == |records|
      && forall i :: 0 <= i < |records| ==> ReadsBack(buffer, starts[i], records[i])
  {
    var buffer := WireAll(records);
    assert buffer == [] + WireAll(records);
    WireAllIsLaid(buffer, [], records);
    LaidOffsets(buffer, 0, records);
    StartsLength(records, 0);
    forall i | 0 <= i < |records| ensures ReadsBack(buffer, Starts(records, 0)[i], records[i]) {
      StridedReads([], records, i);
    }
  }

  // ---- records as the kernel lays them out

  /** inotify(7): the length field counts the name only, which follows the header. */
  ghost predicate KernelLaid(records: seq<Record>) {
    forall r | r in records :: Fits(r) && Word32(r.len, 0) == |r.body|
  }

  lemma FirstKernel(r: Record, rest: seq<Byte>)
    requires Fits(r) && Word32(r.len, 0) == |r.body|
    ensures var buffer, len := Wire(r) + rest, |r.body|;
      && |buffer| == HEADER + len + |rest|
      && buffer[HEADER..HEADER + len] == r.body
      && Offsets(buffer, 0, |buffer|) == if len < HEADER then [] else [0] + Offsets(buffer, len, |buffer| - len)
  {
    var buffer := Wire(r) + rest;
    assert buffer == [] + Wire(r) + rest;
    WireFields(buffer, [], r, rest);
  }

  lemma SecondStart(records: seq<Record>)
    requires |records| > 1
    ensures |Starts(records, 0)| > 1 && Starts(records, 0)[1] == HEADER + |records[0].body|
  {
    StartsLength(records, 0);
    assert Starts(records, 0)[1] == Starts(records[1..], HEADER + |records[0].body|)[0];
  }

  lemma SecondOffset(buffer: seq<Byte>, p: nat, length: int, offsets: seq<nat>)
    requires p + length <= |buffer|
    requires offsets == [0] + Offsets(buffer, p, length)
    ensures |offsets| > 1 ==> offsets[1] == p
    ensures |offsets| > 1 <==> EventOk(buffer, p, length)
  {
  }

  /** Behind a record there is another: it starts at 16 + len, but the walk goes on at len. */
  lemma KernelMany(records: seq<Record>)
    requires |records| > 1 && KernelLaid(records)
    ensures Offsets(WireAll(records), 0, |WireAll(records)|) != Starts(records, 0)
  {
    var buffer, len := WireAll(records), |records[0].body|;
    FirstKernel(records[0], WireAll(records[1..]));
    SecondStart(records);
    if len >= HEADER {
      SecondOffset(buffer, len, |buffer| - len, Offsets(buffer, 0, |buffer|));
    }
  }

  /** The four bytes 12 behind `p`, in the buffer and in the body that ends it. */
  lemma LastWord(buffer: seq<Byte>, body: seq<Byte>)
    requires |body| >= HEADER && |buffer| == HEADER + |body| && buffer[HEADER..HEADER + |body|] == body
    ensures LenAt(buffer, |body|) == Word32(body, |body| - 4)
  {
    assert buffer[|body| + 12..|body| + 16] == buffer[HEADER..HEADER + |body|][|body| - 4..];
    assert body[|body| - 4..|body|] == body[|body| - 4..];
  }

  /** A single record: the walk goes on 16 bytes before its end, at the last of its name. */
  lemma KernelOne(r: Record)
    requires Fits(r) && Word32(r.len, 0) == |r.body|
    ensures Offsets(Wire(r), 0, |Wire(r)|) == [0] <==> LongName(r.body)
  {
    assert Wire(r) + [] == Wire(r);
    FirstKernel(r, []);
    LastRecord(Wire(r), r.body);
  }

  lemma LastRecord(buffer: seq<Byte>, body: seq<Byte>)
    requires |buffer| == HEADER + |body| && buffer[HEADER..HEADER + |body|] == body
    requires Offsets(buffer, 0, |buffer|)
          == if |body| < HEADER then [] else [0] + Offsets(buffer, |body|, |buffer| - |body|)
    ensures Offsets(buffer, 0, |buffer|) == [0] <==> LongName(body)
  {
    if |body| >= HEADER {
      LastWord(buffer, body);
      SecondOffset(buffer, |body|, HEADER, Offsets(buffer, 0, |buffer|));
      assert EventOk(buffer, |body|, HEADER) <==> Word32(body, |body| - 4) == HEADER;
      assert Offsets(buffer, |body|, HEADER) == [] <==> !EventOk(buffer, |body|, HEADER);
    }
  }

  lemma OneRecord(records: seq<Record>)
    requires |records| == 1
    ensures WireAll(records) == Wire(records[0]) && Starts(records, 0) == [0]
  {
    assert records[1..] == [];
  }

  /** No event, or a single one with at least 16 bytes of name, the last four of which do not
      read as the number 16. */
  predicate Walkable(records: seq<Record>) {
    records == [] || (|records| == 1 && LongName(records[0].body))
  }

  predicate LongName(name: seq<Byte>) {
    |name| >= HEADER && Word32(name, |name| - 4) != HEADER
  }

  /** The walk over what the kernel wrote visits the events, all of them and nothing else. */
  predicate WalkedRight(records: seq<Record>) {
    Offsets(WireAll(records), 0, |WireAll(records)|) == Starts(records, 0)
  }

  /** On the kernel's own layout the walk is right if and only if the records are walkable. Two
      events in one read are never walked right, and neither is an event without a name, such
      as one of a watched directory itself. */
  lemma KernelWalk(records: seq<Record>)
    requires KernelLaid(records)
    ensures WalkedRight(records) <==> Walkable(records)
  {
    if |records| > 1 {
      KernelMany(records);
    } else if |records| == 1 {
      OneRecord(records);
      KernelOne(records[0]);
    } else {
      assert WireAll(records) == [];
    }
  }
}
