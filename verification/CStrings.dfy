/** NUL-terminated strings in char arrays, and the <string.h> calls the daemon makes on them. */
module CStrings {

  /** The string at the start of a buffer. */
  function Str(buffer: seq<char>): (s: string)
    ensures |s| <= |buffer| && s == buffer[..|s|] && '\0' !in s
    ensures |s| < |buffer| ==> buffer[|s|] == '\0'
  {
    if buffer == [] || buffer[0] == '\0' then [] else [buffer[0]] + Str(buffer[1..])
  }

  /** The buffer holds a terminated string. */
  predicate Terminated(buffer: seq<char>) {
    '\0' in buffer
  }

  lemma {:induction false} TerminatedFits(buffer: seq<char>)
    requires Terminated(buffer)
    ensures |Str(buffer)| < |buffer|
    decreases |buffer|
  {
    if buffer[0] != '\0' {
      TerminatedFits(buffer[1..]);
    }
  }

  /** Content followed by a NUL is a string, whatever comes after. */
  lemma {:induction false} StrIs(buffer: seq<char>, s: string)
    requires |s| < |buffer| && buffer[..|s|] == s && buffer[|s|] == '\0' && '\0' !in s
    ensures Str(buffer) == s && Terminated(buffer)
    decreases |s|
  {
    if s != [] {
      assert s[0] in s && buffer[0] == s[0];
      assert buffer[1..][..|s| - 1] == s[1..];
      StrIs(buffer[1..], s[1..]);
    } else {
      assert buffer[0] in buffer;
    }
  }

  method Strlen(s: array<char>) returns (n: nat)
    requires Terminated(s[..])
    ensures n == |Str(s[..])| < s.Length
  {
    TerminatedFits(s[..]);
    n := 0;
    while s[n] != '\0'
      invariant n <= |Str(s[..])|
      decreases |Str(s[..])| - n
    {
      n := n + 1;
    }
  }

  /** strcpy(dest, src + from) */
  method Strcpy(dest: array<char>, src: array<char>, from: nat)
    requires dest != src && from <= src.Length && Terminated(src[from..])
    requires |Str(src[from..])| < dest.Length
    modifies dest
    ensures Terminated(dest[..]) && Str(dest[..]) == Str(src[from..])
  {
    TerminatedFits(src[from..]);
    ghost var s := Str(src[from..]);
    var i := 0;
    while src[from + i] != '\0'
      invariant i <= |s| && dest[..i] == s[..i] && src[from..] == old(src[from..])
      decreases |s| - i
    {
      dest[i] := src[from + i];
      i := i + 1;
    }
    dest[i] := '\0';
    assert dest[..i] == s;
    StrIs(dest[..], s);
  }

  /** strrchr: the index of the last `c`, or None for NULL. */
  method Strrchr(s: array<char>, c: char) returns (index: int)
    requires Terminated(s[..]) && c != '\0'
    ensures index == -1 ==> c !in Str(s[..])
    ensures index != -1 ==> 0 <= index < |Str(s[..])| && Str(s[..])[index] == c && c !in Str(s[..])[index + 1..]
  {
    index := -1;
    var n := Strlen(s);
    ghost var str := Str(s[..]);
    for i := 0 to n
      invariant -1 <= index < i
      invariant index != -1 ==> str[index] == c
      invariant forall j :: index < j < i ==> str[j] != c
    {
      assert s[i] == str[i];
      if s[i] == c {
        index := i;
      }
    }
  }
}
