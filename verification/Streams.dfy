/** stdio streams: the copying loop of transact_transfer_file and hash_file, both in
    1024-byte chunks, with short reads and short writes chosen by an oracle. */
module Streams {
  import opened Bytes
  import opened Digests

  const BUFFER_SIZE: nat := 1024

  /** What the k-th fread or fwrite of a pass is able to move, at most. */
  type Sizes = nat -> nat

  function Min(a: nat, b: nat): nat {
    if a <= b then a else b
  }

  /** What the k-th fread delivers when `left` bytes remain: never more than the buffer, the
      rest of the file or the oracle's choice. Zero before the end is a read error. */
  function Delivered(sizes: Sizes, k: nat, left: nat): nat {
    Min(sizes(k), Min(BUFFER_SIZE, left))
  }

  /** All the bytes a pass of freads over `data` delivers before one delivers nothing. */
  function ReadThrough(data: seq<Byte>, sizes: Sizes, k: nat): seq<Byte>
    decreases |data|
  {
    var n := Delivered(sizes, k, |data|);
    if n == 0 then [] else data[..n] + ReadThrough(data[n..], sizes, k + 1)
  }

  /** What arrives at the other end when every chunk read is written, each write moving
      only what the oracle allows of its chunk. */
  function CopiedThrough(data: seq<Byte>, sizes: Sizes, writes: Sizes, k: nat): seq<Byte>
    decreases |data|
  {
    var n := Delivered(sizes, k, |data|);
    if n == 0 then [] else data[..Min(writes(k), n)] + CopiedThrough(data[n..], sizes, writes, k + 1)
  }

  /** Every read makes progress. */
  ghost predicate NoReadError(sizes: Sizes) {
    forall k :: sizes(k) >= 1
  }

  /** Every write takes the whole of any chunk. */
  ghost predicate NoShortWrite(writes: Sizes) {
    forall k :: writes(k) >= BUFFER_SIZE
  }

  lemma {:induction false} ReadThroughIsPrefix(data: seq<Byte>, sizes: Sizes, k: nat)
    ensures ReadThrough(data, sizes, k) <= data
    decreases |data|
  {
    var n := Delivered(sizes, k, |data|);
    if n != 0 {
      ReadThroughIsPrefix(data[n..], sizes, k + 1);
      assert data == data[..n] + data[n..];
    }
  }

  /** However a file is split into non-empty reads, the reads deliver all of it. */
  lemma {:induction false} ReadThroughAll(data: seq<Byte>, sizes: Sizes, k: nat)
    requires NoReadError(sizes)
    ensures ReadThrough(data, sizes, k) == data
    decreases |data|
  {
    var n := Delivered(sizes, k, |data|);
    if n != 0 {
      ReadThroughAll(data[n..], sizes, k + 1);
    } else {
      assert sizes(k) >= 1;
    }
  }

  /** Writing loses bytes or keeps them; it never makes the copy longer than what was read. */
  lemma {:induction false} CopiedIsNoLonger(data: seq<Byte>, sizes: Sizes, writes: Sizes, k: nat)
    ensures |CopiedThrough(data, sizes, writes, k)| <= |ReadThrough(data, sizes, k)| <= |data|
    decreases |data|
  {
    var n := Delivered(sizes, k, |data|);
    if n != 0 {
      CopiedIsNoLonger(data[n..], sizes, writes, k + 1);
    }
  }

  /** With no short write from the chunk `k` on, the copy is what is read from there. */
  lemma {:induction false} CopiedIsReadFrom(data: seq<Byte>, sizes: Sizes, writes: Sizes, k: nat)
    requires forall i :: i >= k ==> writes(i) >= BUFFER_SIZE
    ensures CopiedThrough(data, sizes, writes, k) == ReadThrough(data, sizes, k)
    decreases |data|
  {
    var n := Delivered(sizes, k, |data|);
    if n != 0 {
      CopiedIsReadFrom(data[n..], sizes, writes, k + 1);
      assert writes(k) >= BUFFER_SIZE;
    }
  }

  /** With no short write the copy is what was read, for any length and any split. */
  lemma CopiedIsRead(data: seq<Byte>, sizes: Sizes, writes: Sizes, k: nat)
    requires NoShortWrite(writes)
    ensures CopiedThrough(data, sizes, writes, k) == ReadThrough(data, sizes, k)
  {
    CopiedIsReadFrom(data, sizes, writes, k);
  }

  /** One turn of the copying loop moves a chunk from what is still to be copied to what has been. */
  lemma CopyTurn(written: seq<Byte>, data: seq<Byte>, sizes: Sizes, writes: Sizes, k: nat)
    requires Delivered(sizes, k, |data|) > 0
    ensures var n := Delivered(sizes, k, |data|);
            written + data[..Min(writes(k), n)] + CopiedThrough(data[n..], sizes, writes, k + 1)
            == written + CopiedThrough(data, sizes, writes, k)
  {
  }

  /** An open FILE. A stream opened "wb" is not readable. */
  class Stream {
    var data: seq<Byte>
    var pos: nat
    const readable: bool

    constructor (data: seq<Byte>, readable: bool)
      ensures this.data == data && pos == 0 && this.readable == readable
    {
      this.data, pos, this.readable := data, 0, readable;
    }

    ghost predicate Valid()
      reads this
    {
      pos <= |data|
    }

    /** What is still ahead of the read position. */
    function Ahead(): seq<Byte>
      requires Valid()
      reads this
    {
      if readable then data[pos..] else []
    }

    method Fread(buffer: array<Byte>, sizes: Sizes, k: nat) returns (n: nat)
      requires Valid() && buffer.Length == BUFFER_SIZE
      modifies this`pos, buffer
      ensures Valid()
      ensures n == Delivered(sizes, k, |old(Ahead())|)
      ensures n <= BUFFER_SIZE && buffer[..n] == old(Ahead())[..n] && Ahead() == old(Ahead())[n..]
    {
      if !readable {
        return 0;
      }
      n := Delivered(sizes, k, |data| - pos);
      for i := 0 to n
        invariant n <= |data| - pos && pos == old(pos)
        invariant forall j :: 0 <= j < i ==> buffer[j] == data[pos + j]
      {
        buffer[i] := data[pos + i];
      }
      pos := pos + n;
    }

    /** Appends what can be written of the first `n` bytes of the buffer. */
    method Fwrite(buffer: array<Byte>, n: nat, writes: Sizes, k: nat)
      requires Valid() && n <= buffer.Length && pos == |data|
      modifies this
      ensures Valid() && pos == |data|
      ensures data == old(data) + buffer[..n][..Min(writes(k), n)]
    {
      data := data + buffer[..n][..Min(writes(k), n)];
      pos := |data|;
    }

    method Rewind()
      modifies this`pos
      ensures Valid() && pos == 0
    {
      pos := 0;
    }
  }

  /** One fread, and the fwrite of what it delivered unless that is nothing. */
  method CopyChunk(source: Stream, dest: Stream, buffer: array<Byte>, sizes: Sizes, writes: Sizes, k: nat)
    returns (bytes: nat)
    requires source != dest && source.Valid() && buffer.Length == BUFFER_SIZE
    requires dest.Valid() && dest.pos == |dest.data|
    modifies source`pos, dest, buffer
    ensures source.Valid() && dest.Valid() && dest.pos == |dest.data|
    ensures bytes == Delivered(sizes, k, |old(source.Ahead())|)
    ensures source.Ahead() == old(source.Ahead())[bytes..]
    ensures dest.data == old(dest.data) + old(source.Ahead())[..Min(writes(k), bytes)]
  {
    ghost var ahead := source.Ahead();
    bytes := source.Fread(buffer, sizes, k);
    if bytes > 0 {
      dest.Fwrite(buffer, bytes, writes, k);
      assert buffer[..bytes][..Min(writes(k), bytes)] == ahead[..Min(writes(k), bytes)];
    }
  }

  /** The copying loop of transact_transfer_file, from the start of `source`. */
  method CopyStream(source: Stream, dest: Stream, sizes: Sizes, writes: Sizes)
    requires source != dest && source.readable
    requires source.Valid() && source.pos == 0 && dest.Valid() && dest.pos == |dest.data|
    modifies source`pos, dest
    ensures source.Valid() && dest.Valid()
    ensures dest.data == old(dest.data) + CopiedThrough(source.data, sizes, writes, 0)
  {
    var buffer := new Byte[BUFFER_SIZE];
    var k := 0;
    assert source.data[0..] == source.data;
    ghost var all := dest.data + CopiedThrough(source.data, sizes, writes, 0);
    while true
      invariant source.Valid() && dest.Valid() && dest.pos == |dest.data|
      invariant dest.data + CopiedThrough(source.Ahead(), sizes, writes, k) == all
      decreases |source.Ahead()|
    {
      ghost var ahead, written := source.Ahead(), dest.data;
      var bytes := CopyChunk(source, dest, buffer, sizes, writes, k);
      if bytes == 0 {
        break;
      }
      CopyTurn(written, ahead, sizes, writes, k);
      k := k + 1;
    }
  }

  /** hash_file: the digest of everything a rewound pass over the stream delivers. */
  method HashFile(alg: Algorithm, source: Stream, sizes: Sizes) returns (hash: nat)
    modifies source`pos
    ensures source.Valid()
    ensures hash == Digest(alg, ReadThrough(if source.readable then source.data else [], sizes, 0))
  {
    var buffer := new Byte[BUFFER_SIZE];
    var state := alg.init;
    source.Rewind();
    var k := 0;
    assert source.data[0..] == source.data;
    ghost var all := ReadThrough(source.Ahead(), sizes, 0);
    while true
      invariant source.Valid()
      invariant Update(alg, state, ReadThrough(source.Ahead(), sizes, k)) == Update(alg, alg.init, all)
      decreases |source.Ahead()|
    {
      ghost var ahead := source.Ahead();
      var bytes := source.Fread(buffer, sizes, k);
      if bytes == 0 {
        break;
      }
      UpdateConcat(alg, state, ahead[..bytes], ReadThrough(ahead[bytes..], sizes, k + 1));
      state := Update(alg, state, buffer[..bytes]);
      k := k + 1;
    }
    hash := alg.finish(state);
  }

  /** verify_files: 0 when both streams hash alike, -1 when they do not. */
  method VerifyFiles(alg: Algorithm, source: Stream, dest: Stream, sourceSizes: Sizes, destSizes: Sizes)
    returns (r: int)
    requires source != dest
    modifies source`pos, dest`pos
    ensures source.Valid() && dest.Valid()
    ensures r == if Digest(alg, ReadThrough(if source.readable then source.data else [], sourceSizes, 0))
                 == Digest(alg, ReadThrough(if dest.readable then dest.data else [], destSizes, 0)) then 0 else -1
  {
    var sourceHash := HashFile(alg, source, sourceSizes);
    var destHash := HashFile(alg, dest, destSizes);
    r := if sourceHash == destHash then 0 else -1;
  }

  /** With the copy readable and no fault, verification accepts the copy of any file, however
      the four passes are split into chunks. */
  lemma FaultFreeCopyVerifies(alg: Algorithm, data: seq<Byte>, copying: Sizes, writes: Sizes,
      sourceSizes: Sizes, destSizes: Sizes)
    requires NoReadError(copying) && NoShortWrite(writes) && NoReadError(sourceSizes) && NoReadError(destSizes)
    ensures CopiedThrough(data, copying, writes, 0) == data
    ensures Digest(alg, ReadThrough(CopiedThrough(data, copying, writes, 0), destSizes, 0))
         == Digest(alg, ReadThrough(data, sourceSizes, 0)) == Digest(alg, data)
  {
    CopiedIsRead(data, copying, writes, 0);
    ReadThroughAll(data, copying, 0);
    ReadThroughAll(data, sourceSizes, 0);
    ReadThroughAll(data, destSizes, 0);
  }

  // ---- what single faults do

  /** A write that takes all of any chunk but the one numbered `j`, of which it takes `w` bytes. */
  ghost predicate OneShort(writes: Sizes, j: nat, w: nat) {
    && w < BUFFER_SIZE && writes(j) == w
    && forall k :: k != j ==> writes(k) >= BUFFER_SIZE
  }

  ghost predicate WholeReads(sizes: Sizes) {
    forall k :: sizes(k) >= BUFFER_SIZE
  }

  /** The bytes up to `cut`, and those from `resume` on, as far as there are any. */
  function WithGap(data: seq<Byte>, cut: nat, resume: nat): seq<Byte>
    requires cut <= resume
  {
    data[..Min(cut, |data|)] + data[Min(resume, |data|)..]
  }

  /** A gap that starts behind the first chunk. */
  lemma GapBehind(data: seq<Byte>, cut: nat, resume: nat)
    requires cut <= resume
    ensures var n := Min(1024, |data|);
      data[..n] + WithGap(data[n..], cut, resume) == WithGap(data, 1024 + cut, 1024 + resume)
  {
  }

  /** The copy made from the `k`-th read on is the data with that gap. */
  predicate CopiedWithGap(data: seq<Byte>, sizes: Sizes, writes: Sizes, k: nat, cut: nat, resume: nat)
    requires cut <= resume
  {
    CopiedThrough(data, sizes, writes, k) == WithGap(data, cut, resume)
  }

  /** A gap that starts in the first chunk. */
  lemma GapHere(data: seq<Byte>, w: nat)
    requires w < 1024
    ensures var n := Min(1024, |data|);
      data[..n][..Min(w, n)] + data[n..] == WithGap(data, w, 1024)
  {
  }

  /** One turn of the copying loop when reads fill the buffer. */
  lemma WholeTurn(data: seq<Byte>, sizes: Sizes, writes: Sizes, k: nat)
    requires WholeReads(sizes)
    ensures var n := Min(1024, |data|);
      CopiedThrough(data, sizes, writes, k)
      == data[..n][..Min(writes(k), n)] + CopiedThrough(data[n..], sizes, writes, k + 1)
  {
    assert sizes(k) >= BUFFER_SIZE;
  }

  lemma ShortHere(data: seq<Byte>, sizes: Sizes, writes: Sizes, k: nat, w: nat)
    requires WholeReads(sizes) && OneShort(writes, k, w)
    ensures CopiedWithGap(data, sizes, writes, k, w, 1024)
  {
    var rest := data[Min(1024, |data|)..];
    WholeTurn(data, sizes, writes, k);
    CopiedIsReadFrom(rest, sizes, writes, k + 1);
    ReadsOn(rest, sizes, k + 1);
    GapHere(data, w);
  }

  lemma ShortLater(data: seq<Byte>, sizes: Sizes, writes: Sizes, k: nat, cut: nat, resume: nat, cut': nat, resume': nat)
    requires WholeReads(sizes) && writes(k) >= BUFFER_SIZE
    requires cut <= resume && cut' == 1024 + cut && resume' == 1024 + resume
    requires CopiedWithGap(data[Min(1024, |data|)..], sizes, writes, k + 1, cut, resume)
    ensures CopiedWithGap(data, sizes, writes, k, cut', resume')
  {
    WholeTurn(data, sizes, writes, k);
    GapBehind(data, cut, resume);
    var first := data[..Min(1024, |data|)];
    assert first[..|first|] == first;
  }

  lemma FullWrite(writes: Sizes, k: nat, j: nat, w: nat)
    requires OneShort(writes, j, w) && k != j
    ensures writes(k) >= BUFFER_SIZE
  {
  }

  lemma {:induction false} ShortAfter(data: seq<Byte>, sizes: Sizes, writes: Sizes, k: nat, j: nat, w: nat,
      cut: nat, resume: nat)
    requires WholeReads(sizes) && OneShort(writes, j, w) && k <= j
    requires cut == 1024 * (j - k) + w && resume == 1024 * (j - k) + 1024
    ensures CopiedWithGap(data, sizes, writes, k, cut, resume)
    decreases j - k
  {
    if k == j {
      ShortHere(data, sizes, writes, k, w);
    } else {
      ShortAfter(data[Min(1024, |data|)..], sizes, writes, k + 1, j, w, cut - 1024, resume - 1024);
      FullWrite(writes, k, j, w);
      ShortLater(data, sizes, writes, k, cut - 1024, resume - 1024, cut, resume);
    }
  }

  /** A single short write, in the chunk `j`, costs exactly the rest of that chunk: nothing
      notices it, and the copying goes on with the next chunk, right behind what was written. */
  lemma OneShortWrite(data: seq<Byte>, sizes: Sizes, writes: Sizes, j: nat, w: nat)
    requires WholeReads(sizes) && OneShort(writes, j, w)
    ensures CopiedThrough(data, sizes, writes, 0)
         == data[..Min(1024 * j + w, |data|)] + data[Min(1024 * j + 1024, |data|)..]
  {
    ShortAfter(data, sizes, writes, 0, j, w, 1024 * j + w, 1024 * j + 1024);
  }

  lemma ReadsOn(data: seq<Byte>, sizes: Sizes, k: nat)
    requires WholeReads(sizes)
    ensures ReadThrough(data, sizes, k) == data
  {
    forall i ensures sizes(i) >= 1 {
      assert sizes(i) >= BUFFER_SIZE;
    }
    ReadThroughAll(data, sizes, k);
  }

  /** A read error ends the pass where it strikes, as the end of the file would. */
  lemma {:induction false} OneReadError(data: seq<Byte>, sizes: Sizes, k: nat, ahead: nat)
    requires sizes(k + ahead) == 0 && forall i :: k <= i < k + ahead ==> sizes(i) >= BUFFER_SIZE
    ensures ReadThrough(data, sizes, k) == data[..Min(1024 * ahead, |data|)]
    decreases ahead
  {
    if ahead > 0 && data != [] {
      OneReadError(data[Min(1024, |data|)..], sizes, k + 1, ahead - 1);
      assert sizes(k) >= BUFFER_SIZE;
      assert data == data[..Min(1024, |data|)] + data[Min(1024, |data|)..];
    }
  }
}
