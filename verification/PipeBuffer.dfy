/** __save_pipe_buffer: the output of a command, collected line by line in a growing buffer. */
module PipeBuffer {
  import opened CStrings

  /** What fgets leaves in its 1024-byte buffer: a string, so it has no NUL, with room for one. */
  const LINE_BUFFER: nat := 1024

  predicate IsLine(line: string) {
    '\0' !in line && |line| < LINE_BUFFER
  }

  function Concat(lines: seq<string>): string {
    if lines == [] then [] else lines[0] + Concat(lines[1..])
  }

  /** The size of the buffer once there has been one look at whether `line` fits. */
  function Grown(line: string, used: nat, capacity: nat): nat {
    if used + |line| + 1 <= capacity then capacity
    else if capacity == 0 then |line| * 2
    else capacity * 2
  }

  /** Every line goes into the buffer as it has grown by then: one doubling is always enough. */
  predicate Fits(lines: seq<string>, used: nat, capacity: nat)
    decreases |lines|
  {
    lines == [] ||
    var size := Grown(lines[0], used, capacity);
    used + |lines[0]| + 1 <= size && Fits(lines[1..], used + |lines[0]|, size)
  }

  datatype Saved = Null | Buffer(data: array<char>) | OutOfBounds

  /** `OutOfBounds` marks the first write behind the end of the buffer, from where on C
      promises nothing. */
  method SavePipeBuffer(lines: seq<string>) returns (saved: Saved)
    requires forall line | line in lines :: IsLine(line)
    ensures saved.OutOfBounds? <==> !Fits(lines, 0, 0)
    ensures saved.Null? <==> lines == []
    ensures saved.Buffer? ==> Terminated(saved.data[..]) && Str(saved.data[..]) == Concat(lines)
  {
    if lines == [] {
      return Null;
    }
    var used: nat := 0;
    var output := new char[0];
    for i := 0 to |lines|
      invariant fresh(output) && used <= output.Length
      invariant if i == 0 then output.Length == 0 else used < output.Length && output[used] == '\0'
      invariant output[..used] == Concat(lines[..i])
      invariant Fits(lines[i..], used, output.Length) == Fits(lines, 0, 0)
    {
      NextLine(lines, i);
      NextFits(lines, i, used, output.Length);
      var fits;
      output, fits := TakeLine(output, used, lines[i]);
      if !fits {
        return OutOfBounds;
      }
      used := used + |lines[i]|;
    }
    assert lines[..|lines|] == lines;
    ConcatHasNoNul(lines);
    StrIs(output[..], Concat(lines));
    saved := Buffer(output);
  }

  /** One line into the buffer, grown once if that is too small; `fits` is false when the line
      would run past the end even so. */
  method TakeLine(output: array<char>, used: nat, line: string) returns (output': array<char>, fits: bool)
    requires used <= output.Length
    modifies output
    ensures output' == output || fresh(output')
    ensures output'.Length == Grown(line, used, output.Length)
    ensures fits <==> used + |line| + 1 <= output'.Length
    ensures fits ==> output'[..used + |line|] == old(output[..used]) + line && output'[used + |line|] == '\0'
  {
    output' := output;
    if used + |line| + 1 > output.Length {
      var capacity := if output.Length == 0 then |line| * 2 else output.Length * 2;
      output' := Realloc(output, used, capacity);
    }
    fits := used + |line| + 1 <= output'.Length;
    if fits {
      Append(output', used, line);
    }
  }

  lemma {:induction false} NextLine(lines: seq<string>, i: nat)
    requires i < |lines|
    ensures Concat(lines[..i + 1]) == Concat(lines[..i]) + lines[i]
  {
    if i == 0 {
      assert lines[..1][1..] == [];
    } else {
      NextLine(lines[1..], i - 1);
      assert lines[..i + 1][1..] == lines[1..][..i] && lines[..i][1..] == lines[1..][..i - 1];
    }
  }

  lemma NextFits(lines: seq<string>, i: nat, used: nat, capacity: nat)
    requires i < |lines|
    ensures var size := Grown(lines[i], used, capacity);
      Fits(lines[i..], used, capacity)
      <==> used + |lines[i]| + 1 <= size && Fits(lines[i + 1..], used + |lines[i]|, size)
  {
    assert lines[i..][1..] == lines[i + 1..];
  }

  lemma {:induction false} ConcatHasNoNul(lines: seq<string>)
    requires forall line | line in lines :: IsLine(line)
    ensures '\0' !in Concat(lines)
  {
    if lines != [] {
      assert lines[0] in lines;
      ConcatHasNoNul(lines[1..]);
    }
  }

  /** realloc, of which the first `used` characters matter. */
  method Realloc(data: array<char>, used: nat, size: nat) returns (larger: array<char>)
    requires used <= data.Length && used <= size
    ensures fresh(larger) && larger.Length == size && larger[..used] == data[..used]
  {
    larger := new char[size];
    for j := 0 to used
      invariant larger[..j] == data[..j]
    {
      larger[j] := data[j];
    }
  }

  /** memcpy behind what there is, and the NUL. */
  method Append(data: array<char>, used: nat, line: string)
    requires used + |line| < data.Length
    modifies data
    ensures data[..used + |line|] == old(data[..used]) + line && data[used + |line|] == '\0'
  {
    for j := 0 to |line|
      invariant data[..used + j] == old(data[..used]) + line[..j]
    {
      data[used + j] := line[j];
    }
    data[used + |line|] := '\0';
  }

  // ---- when one doubling is enough

  /** After a first line that is not empty, no line is longer than the buffer is when it comes. */
  predicate Modest(lines: seq<string>, used: nat, capacity: nat)
    decreases |lines|
  {
    lines == [] ||
    ((if capacity == 0 then lines[0] != [] else |lines[0]| <= capacity)
      && Modest(lines[1..], used + |lines[0]|, Grown(lines[0], used, capacity)))
  }

  /** Then all of the output is saved, and the buffer keeps room for the NUL throughout. */
  lemma {:induction false} ModestFits(lines: seq<string>, used: nat, capacity: nat)
    requires Modest(lines, used, capacity)
    requires used < capacity || (used == 0 && capacity == 0)
    ensures Fits(lines, used, capacity)
    decreases |lines|
  {
    if lines != [] {
      ModestFits(lines[1..], used + |lines[0]|, Grown(lines[0], used, capacity));
    }
  }

  /** A first line of at least half the line buffer makes every output safe. */
  lemma LongFirstLineFits(lines: seq<string>)
    requires lines != [] && |lines[0]| >= 512
    requires forall line | line in lines :: IsLine(line)
    ensures Fits(lines, 0, 0)
  {
    LongBufferIsModest(lines[1..], |lines[0]|, 2 * |lines[0]|);
    ModestFits(lines, 0, 0);
  }

  lemma {:induction false} LongBufferIsModest(lines: seq<string>, used: nat, capacity: nat)
    requires capacity >= LINE_BUFFER
    requires forall line | line in lines :: IsLine(line)
    ensures Modest(lines, used, capacity)
    decreases |lines|
  {
    if lines != [] {
      assert lines[0] in lines;
      LongBufferIsModest(lines[1..], used + |lines[0]|, Grown(lines[0], used, capacity));
    }
  }

  /** Two lines are saved if and only if the first is not empty and the second is less than
      three times as long: otherwise the copy runs past the doubled buffer. */
  lemma TwoLinesExactly(a: string, b: string)
    ensures Fits([a, b], 0, 0) <==> a != [] && |b| < 3 * |a|
  {
    assert [a, b][1..] == [b] && [b][1..] == [];
    assert Fits([a, b], 0, 0) <==> a != [] && Fits([b], |a|, 2 * |a|);
  }

  /** Fits of a list that goes on after a first part. */
  lemma {:induction false} EmptyLineBehind(before: seq<string>, after: seq<string>, used: nat, capacity: nat)
    requires before != [] || used < capacity
    requires used < capacity || (used == 0 && capacity == 0)
    ensures Fits(before + [""] + after, used, capacity) <==> Fits(before + after, used, capacity)
    decreases |before|
  {
    if before == [] {
      assert [] + [""] + after == [""] + after && ([""] + after)[1..] == after && [] + after == after;
    } else {
      var size := Grown(before[0], used, capacity);
      assert (before + [""] + after)[1..] == before[1..] + [""] + after && (before + after)[1..] == before[1..] + after;
      if used + |before[0]| + 1 <= size {
        EmptyLineBehind(before[1..], after, used + |before[0]|, size);
      }
    }
  }

  /** A line without characters, as fgets leaves one that starts with a NUL, changes nothing for
      the others, anywhere but at the very beginning; there it overruns the buffer. */
  lemma EmptyLinesExactly(before: seq<string>, after: seq<string>)
    ensures before != [] ==> (Fits(before + [""] + after, 0, 0) <==> Fits(before + after, 0, 0))
    ensures !Fits([""] + after, 0, 0)
  {
    if before != [] {
      EmptyLineBehind(before, after, 0, 0);
    }
  }
}
