/** __get_path: the daemon's treatment of the path given for the monitor's log file. */
module LogPath {
  import opened CStrings
  import opened Options

  const PATH_MAX: nat := 4096

  const D_SUCCESS: int := 0
  const D_INVALID_PATH_FORMAT: int := -1
  const D_NO_WRITE_TO_LOG_PARENT_DIRECTORY: int := -2
  const D_PARENT_PATH_NO_EXIST: int := -3
  const D_COULD_NOT_EXPAND: int := -4

  // the mode argument of access, which the source also takes for its result
  const W_OK: int := 2

  /** The file system as realpath and access see it; access returns 0 or -1. */
  datatype System = System(
    realpath: string -> Option<string>,
    parentExists: string -> bool,
    parentWritable: string -> bool)

  function Access(granted: bool): int {
    if granted then 0 else -1
  }

  /** __remove_last_item_path: splits at the last slash, if there is one. */
  method RemoveLastItemPath(path: array<char>, directory: array<char>, item: array<char>) returns (split: bool)
    requires Terminated(path[..]) && |Str(path[..])| < PATH_MAX
    requires directory.Length == item.Length == PATH_MAX
    requires path != directory && path != item && directory != item
    modifies directory, item
    ensures split <==> '/' in Str(path[..])
    ensures split ==> Terminated(directory[..]) && Terminated(item[..])
    ensures split ==> Str(path[..]) == Str(directory[..]) + "/" + Str(item[..]) && '/' !in Str(item[..])
  {
    var newPath := new char[PATH_MAX];
    assert path[0..] == path[..];
    Strcpy(newPath, path, 0);
    var lastSlash := Strrchr(newPath, '/');
    if lastSlash == -1 {
      return false;
    }
    CutAt(newPath, lastSlash, directory, item);
    Rejoin(Str(path[..]), lastSlash);
    split := true;
  }

  lemma Rejoin(path: string, k: nat)
    requires k < |path| && path[k] == '/'
    ensures '/' in path && path == path[..k] + "/" + path[k + 1..]
  {
  }

  /** The second half of the split: a NUL over the slash, and the two strings copied out. */
  method CutAt(newPath: array<char>, k: nat, directory: array<char>, item: array<char>)
    requires Terminated(newPath[..]) && k < |Str(newPath[..])| < PATH_MAX
    requires directory.Length == item.Length == PATH_MAX
    requires newPath != directory && newPath != item && directory != item
    modifies newPath, directory, item
    ensures Terminated(directory[..]) && Str(directory[..]) == Str(old(newPath[..]))[..k]
    ensures Terminated(item[..]) && Str(item[..]) == Str(old(newPath[..]))[k + 1..]
  {
    Cut(newPath[..], k);
    ghost var cut := newPath[..][k := '\0'];
    newPath[k] := '\0';
    assert newPath[..] == cut;
    assert newPath[0..] == cut;
    Strcpy(directory, newPath, 0);
    var n := Strlen(newPath);
    assert newPath[n + 1..] == cut[n + 1..];
    Strcpy(item, newPath, n + 1);
  }

  /** A NUL put into a string ends it there, and the rest is a string of its own behind it. */
  lemma Cut(buffer: seq<char>, k: nat)
    requires Terminated(buffer) && k < |Str(buffer)|
    ensures var cut := buffer[k := '\0'];
      && Terminated(cut) && Str(cut) == Str(buffer)[..k]
      && Terminated(cut[k + 1..]) && Str(cut[k + 1..]) == Str(buffer)[k + 1..]
  {
    TerminatedFits(buffer);
    var s, cut := Str(buffer), buffer[k := '\0'];
    assert cut[..k] == s[..k];
    StrIs(cut, s[..k]);
    assert cut[k + 1..][..|s| - k - 1] == s[k + 1..];
    StrIs(cut[k + 1..], s[k + 1..]);
  }

  /** snprintf(out, size, "%s/%s", a, b), for an output buffer that is large enough. */
  method JoinPath(out: array<char>, a: array<char>, b: array<char>)
    requires out != a && out != b
    requires Terminated(a[..]) && Terminated(b[..]) && |Str(a[..])| + 1 + |Str(b[..])| < out.Length
    modifies out
    ensures Terminated(out[..]) && Str(out[..]) == Str(a[..]) + "/" + Str(b[..])
  {
    var n := Strlen(a);
    var m := Strlen(b);
    ghost var left, right := Str(a[..]), Str(b[..]);
    CopyChars(out, 0, a, n);
    out[n] := '/';
    assert out[..n + 1] == left + "/";
    CopyChars(out, n + 1, b, m);
    out[n + 1 + m] := '\0';
    Joined(out[..], left, right);
  }

  lemma Joined(out: seq<char>, left: string, right: string)
    requires '\0' !in left && '\0' !in right && |left| + 1 + |right| < |out|
    requires out[..|left| + 1] == left + "/" && out[|left| + 1..|left| + 1 + |right|] == right
    requires out[|left| + 1 + |right|] == '\0'
    ensures Terminated(out) && Str(out) == left + "/" + right
  {
    var n := |left| + 1;
    assert out[..n + |right|] == out[..n] + out[n..n + |right|];
    StrIs(out, left + "/" + right);
  }

  /** `n` characters of `from`, put into `out` at `at`. */
  method CopyChars(out: array<char>, at: nat, from: array<char>, n: nat)
    requires out != from && n <= from.Length && at + n <= out.Length
    modifies out
    ensures out[..at] == old(out[..at]) && out[at..at + n] == from[..n]
  {
    for i := 0 to n
      invariant out[..at] == old(out[..at]) && out[at..at + i] == from[..i]
    {
      out[at + i] := from[i];
    }
  }

  /** realpath(path, out); false for NULL. */
  method ExpandPathToAbsolute(system: System, path: array<char>, out: array<char>) returns (ok: bool)
    requires Terminated(path[..]) && out != path && out.Length == PATH_MAX
    modifies out
    ensures ok == system.realpath(Str(path[..])).Some?
  {
    var resolved := system.realpath(Str(path[..]));
    if resolved.Some? {
      for i := 0 to out.Length {
        out[i] := if i < |resolved.value| then resolved.value[i] else '\0';
      }
    }
    ok := resolved.Some?;
  }

  /** The directory the path is split off from, if it has one. */
  function DirectoryOf(path: string): (r: Option<string>)
    ensures r.None? <==> '/' !in path
    ensures r.Some? ==> |r.value| < |path| && path[..|r.value|] == r.value && path[|r.value|] == '/'
    ensures r.Some? ==> '/' !in path[|r.value| + 1..]
  {
    if path == [] then None
    else if path[|path| - 1] == '/' then Some(path[..|path| - 1])
    else
      var r := DirectoryOf(path[..|path| - 1]);
      assert path == path[..|path| - 1] + [path[|path| - 1]];
      if r.None? then None else
        assert path[|r.value| + 1..] == path[..|path| - 1][|r.value| + 1..] + [path[|path| - 1]];
        r
  }

  /** The code __get_path returns. */
  function PathCode(system: System, path: string): int {
    if path == [] then D_INVALID_PATH_FORMAT
    else
      var directory := DirectoryOf(path);
      if system.realpath(if directory.Some? then directory.value else path).None? then D_COULD_NOT_EXPAND
      else if directory.Some? && !system.parentExists(path) then D_PARENT_PATH_NO_EXIST
      else D_SUCCESS
  }

  /** __get_path; `input` is null for a NULL pointer. A path that is accepted comes out as it
      went in, character for character, although on the way it is taken apart and joined, or
      resolved and then overwritten. */
  method GetPath(system: System, input: array?<char>, output: array<char>) returns (code: int)
    requires input != null ==> Terminated(input[..]) && |Str(input[..])| < PATH_MAX && input != output
    requires output.Length == PATH_MAX
    modifies output
    ensures code == if input == null then D_INVALID_PATH_FORMAT else PathCode(system, Str(input[..]))
    ensures code == D_SUCCESS ==> input != null && Terminated(output[..]) && Str(output[..]) == Str(input[..])
  {
    if input == null || input[0] == '\0' {
      return D_INVALID_PATH_FORMAT;
    }
    ghost var path := Str(input[..]);
    assert input[0..] == input[..];
    var fileName, directory := new char[PATH_MAX], new char[PATH_MAX];
    var split := RemoveLastItemPath(input, directory, fileName);
    if split {
      LastSlash(path, Str(directory[..]), Str(fileName[..]));
      code := GetSplitPath(system, directory, fileName, output);
      return;
    }
    var absolute := ExpandPathToAbsolute(system, input, output);
    if !absolute {
      return D_COULD_NOT_EXPAND;
    }
    Strcpy(output, input, 0);
    code := D_SUCCESS;
  }

  /** The part of __get_path for a path that has a slash. */
  method GetSplitPath(system: System, directory: array<char>, fileName: array<char>, output: array<char>)
    returns (code: int)
    requires output != directory && output != fileName && output.Length == PATH_MAX
    requires Terminated(directory[..]) && Terminated(fileName[..])
    requires |Str(directory[..])| + 1 + |Str(fileName[..])| < PATH_MAX
    modifies output
    ensures var path := Str(old(directory[..])) + "/" + Str(old(fileName[..]));
      && code == (if system.realpath(Str(old(directory[..]))).None? then D_COULD_NOT_EXPAND
                  else if !system.parentExists(path) then D_PARENT_PATH_NO_EXIST else D_SUCCESS)
      && (code == D_SUCCESS ==> Terminated(output[..]) && Str(output[..]) == path)
  {
    var expanded := new char[PATH_MAX];
    var absolute := ExpandPathToAbsolute(system, directory, expanded);
    if !absolute {
      return D_COULD_NOT_EXPAND;
    }
    JoinPath(output, directory, fileName);
    if Access(system.parentExists(Str(output[..]))) != 0 {
      return D_PARENT_PATH_NO_EXIST;
    }
    if Access(system.parentWritable(Str(output[..]))) == W_OK {
      return D_NO_WRITE_TO_LOG_PARENT_DIRECTORY;
    }
    code := D_SUCCESS;
  }

  /** There is only one way to split a path at its last slash. */
  lemma LastSlash(path: string, directory: string, item: string)
    requires path == directory + "/" + item && '/' !in item
    ensures DirectoryOf(path) == Some(directory)
  {
    var r := DirectoryOf(path);
    assert path[|directory|] == '/' && path[..|directory|] == directory && path[|directory| + 1..] == item;
    assert '/' in path;
    var d := r.value;
    assert |d| == |directory|;
  }

  /** A file directly under the root directory is never accepted: what is left in front of its
      slash is the empty path, which realpath does not resolve. */
  lemma RootFilesAreRefused(system: System, name: string)
    requires '/' !in name && system.realpath("").None?
    ensures PathCode(system, "/" + name) == D_COULD_NOT_EXPAND
  {
    assert "/" + name == "" + "/" + name;
    LastSlash("/" + name, "", name);
  }

  /** The code for every path, by its form. A path without a slash is accepted if it resolves
      itself; one with a slash is accepted if what is in front of its last slash resolves and its
      parent exists; and the check for write permission refuses nothing. */
  lemma PathCodeExactly(system: System, directory: string, item: string)
    requires '/' !in item
    ensures PathCode(system, "") == -1
    ensures item != "" ==> PathCode(system, item) == if system.realpath(item).Some? then 0 else -4
    ensures var path := directory + "/" + item;
      PathCode(system, path)
      == if system.realpath(directory).None? then -4 else if !system.parentExists(path) then -3 else 0
  {
    LastSlash(directory + "/" + item, directory, item);
  }
}
