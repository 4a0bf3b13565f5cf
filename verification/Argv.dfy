/** The command line that start_child_process writes and reportman_mon reads back. */
module Argv {
  import opened Options

  // ---- numbers

  const INT_MAX: int := 2147483647
  const INT_MIN: int := -2147483648
  const LONG_MAX: int := 9223372036854775807
  const LONG_MIN: int := -9223372036854775808

  predicate IsDigit(c: char) {
    '0' <= c <= '9'
  }

  predicate IsSpace(c: char) {
    c == ' ' || '\t' <= c <= '\r'
  }

  /** "%d" for a number that is not negative. */
  function Decimal(n: nat): (s: string)
    ensures s != [] && forall c | c in s :: IsDigit(c)
  {
    if n < 10 then ['0' + n as char] else Decimal(n / 10) + ['0' + (n % 10) as char]
  }

  function SkipSpace(s: string): string {
    if s != [] && IsSpace(s[0]) then SkipSpace(s[1..]) else s
  }

  /** The value of the leading digits of `s`, read on from `value`. */
  function Digits(s: string, value: nat): nat
    decreases |s|
  {
    if s == [] || !IsDigit(s[0]) then value else Digits(s[1..], 10 * value + (s[0] - '0') as nat)
  }

  function Clamp(n: int): int {
    if n > LONG_MAX then LONG_MAX else if n < LONG_MIN then LONG_MIN else n
  }

  /** strtol(s, &end, 10); None when nothing is converted, so that end is s. */
  function Strtol(s: string): Option<int> {
    var t := SkipSpace(s);
    var signed := t != [] && (t[0] == '-' || t[0] == '+');
    var digits := if signed then t[1..] else t;
    if digits == [] || !IsDigit(digits[0]) then None
    else Some(Clamp(if signed && t[0] == '-' then -(Digits(digits, 0) as int) else Digits(digits, 0)))
  }

  /** __parse_signed_int_arg; None is its exit. */
  function ParseInt(s: string): Option<int> {
    var value := Strtol(s);
    if value.None? || value.value < INT_MIN || value.value > INT_MAX then None else value
  }

  lemma {:induction false} DigitsSnoc(s: string, c: char, value: nat)
    requires IsDigit(c) && forall d | d in s :: IsDigit(d)
    ensures Digits(s + [c], value) == 10 * Digits(s, value) + (c - '0') as nat
    decreases |s|
  {
    if s == [] {
      assert s + [c] == [c];
      assert Digits([c][1..], 10 * value + (c - '0') as nat) == 10 * value + (c - '0') as nat;
    } else {
      assert (s + [c])[1..] == s[1..] + [c] && IsDigit(s[0]);
      DigitsSnoc(s[1..], c, 10 * value + (s[0] - '0') as nat);
    }
  }

  lemma {:induction false} DigitsDecimal(n: nat)
    ensures Digits(Decimal(n), 0) == n
  {
    if n < 10 {
      DigitsSnoc([], '0' + n as char, 0);
      assert [] + ['0' + n as char] == Decimal(n);
    } else {
      DigitsDecimal(n / 10);
      DigitsSnoc(Decimal(n / 10), '0' + (n % 10) as char, 0);
    }
  }

  /** Every descriptor that printf writes, strtol reads back. */
  lemma ParseDecimal(n: nat)
    requires n <= INT_MAX
    ensures ParseInt(Decimal(n)) == Some(n)
  {
    var s := Decimal(n);
    assert s[0] in s;
    DigitsDecimal(n);
  }

  // ---- writing

  const FIXED_ARGS: nat := 6
  const MAX_INTERPROCESS_ARGUMENTS: nat := 25

  /** The arguments for a child with the given directories and pipe descriptors. */
  function Command(executable: string, dirs: seq<string>, readEnd: nat, writeEnd: nat): seq<string> {
    [executable, "--from-daemon", "--d-to-c", Decimal(readEnd), "--c-to-d", Decimal(writeEnd)] + dirs
  }

  /** The strings before the NULL in an argument array. */
  function UpToNull(args: seq<Option<string>>): seq<string> {
    if args == [] || args[0].None? then [] else [args[0].value] + UpToNull(args[1..])
  }

  /** The counting loop ends inside the array: at its NULL, or at the exit for too many. */
  predicate Terminated(extra: seq<Option<string>>) {
    None in extra || |extra| > MAX_INTERPROCESS_ARGUMENTS + 1
  }

  lemma {:induction false} UpToNullIs(args: seq<Option<string>>, n: nat)
    requires n < |args| && args[n].None? && forall i :: 0 <= i < n ==> args[i].Some?
    ensures |UpToNull(args)| == n && forall i :: 0 <= i < n ==> UpToNull(args)[i] == args[i].value
    decreases n
  {
    if n > 0 {
      UpToNullIs(args[1..], n - 1);
    }
  }

  lemma {:induction false} UpToNullIsLong(args: seq<Option<string>>, n: nat)
    requires n <= |args| && forall i :: 0 <= i < n ==> args[i].Some?
    ensures |UpToNull(args)| >= n
    decreases n
  {
    if n > 0 {
      UpToNullIsLong(args[1..], n - 1);
    }
  }

  /** How the counting goes: up to the NULL, into the exit for too many arguments, or past the
      end of an array that has no NULL, from where on C promises nothing. */
  datatype Counting = Counted | TooMany | OutOfBounds

  /** The loop that counts the directories. */
  method CountArgs(extra: seq<Option<string>>) returns (count: nat, how: Counting)
    ensures how.OutOfBounds? <==> !Terminated(extra)
    ensures Terminated(extra) ==> (how.Counted? <==> |UpToNull(extra)| <= MAX_INTERPROCESS_ARGUMENTS + 1)
    ensures how.Counted? ==> count == |UpToNull(extra)| <= |extra|
    ensures how.Counted? ==> forall i :: 0 <= i < count ==> extra[i] == Some(UpToNull(extra)[i])
  {
    count := 0;
    while true
      invariant 0 <= count <= |extra| && count <= MAX_INTERPROCESS_ARGUMENTS + 1
      invariant forall i :: 0 <= i < count ==> extra[i].Some?
      decreases MAX_INTERPROCESS_ARGUMENTS + 1 - count
    {
      if count == |extra| {
        return count, OutOfBounds;
      }
      if extra[count].None? {
        break;
      }
      if count > MAX_INTERPROCESS_ARGUMENTS {
        UpToNullIsLong(extra, count + 1);
        return count, TooMany;
      }
      count := count + 1;
    }
    assert None in extra;
    UpToNullIs(extra, count);
    how := Counted;
  }

  /** The array, with room for its NULL. */
  method FillArgs(executable: string, extra: seq<Option<string>>, count: nat, readEnd: nat, writeEnd: nat,
      ghost dirs: seq<string>)
    returns (args: array<Option<string>>)
    requires count == |dirs| <= |extra| && forall i :: 0 <= i < count ==> extra[i] == Some(dirs[i])
    ensures UpToNull(args[..]) == Command(executable, dirs, readEnd, writeEnd)
  {
    args := new Option<string>[count + FIXED_ARGS + 1];
    var fixed := [executable, "--from-daemon", "--d-to-c", Decimal(readEnd), "--c-to-d", Decimal(writeEnd)];
    for i := 0 to FIXED_ARGS
      invariant forall j :: 0 <= j < i ==> args[j] == Some(fixed[j])
    {
      args[i] := Some(fixed[i]);
    }
    for i := 0 to count
      invariant forall j :: 0 <= j < FIXED_ARGS ==> args[j] == Some(fixed[j])
      invariant forall j :: 0 <= j < i ==> args[j + FIXED_ARGS] == extra[j]
    {
      args[i + FIXED_ARGS] := extra[i];
    }
    args[count + FIXED_ARGS] := None;
    forall i | 0 <= i < count + FIXED_ARGS ensures args[i] == Some((fixed + dirs)[i]) {
      assert i >= FIXED_ARGS ==> args[i] == args[i - FIXED_ARGS + FIXED_ARGS];
    }
    NullTerminated(args[..], fixed + dirs);
  }

  datatype Built = Args(args: array<Option<string>>) | Exit | Undefined

  /** The argument array start_child_process hands to execv, its exit when there are too many
      directories, or `Undefined` when it runs past an array without a NULL. `extra` is None for
      a NULL pointer. */
  method BuildArgs(executable: string, extra: Option<seq<Option<string>>>, readEnd: nat, writeEnd: nat)
    returns (built: Built)
    ensures built.Undefined? <==> extra.Some? && None !in extra.value && |extra.value| <= 26
    ensures built.Exit? <==>
      extra.Some? && Terminated(extra.value) && |UpToNull(extra.value)| > 26
    ensures built.Args? ==>
      var dirs := if extra.Some? then UpToNull(extra.value) else [];
      UpToNull(built.args[..]) == Command(executable, dirs, readEnd, writeEnd)
  {
    var count, how := 0, Counted;
    if extra.Some? {
      count, how := CountArgs(extra.value);
    }
    match how {
      case OutOfBounds => return Undefined;
      case TooMany => return Exit;
      case Counted =>
    }
    var args := FillArgs(executable, if extra.Some? then extra.value else [], count, readEnd, writeEnd,
                         if extra.Some? then UpToNull(extra.value) else []);
    built := Args(args);
  }

  /** The array the daemon itself hands over for the monitor's first start has no NULL. */
  lemma NoNullNoEnd(dirs: seq<string>)
    requires |dirs| <= 26
    ensures !Terminated(seq(|dirs|, i requires 0 <= i < |dirs| => Some(dirs[i])))
    ensures Terminated(seq(|dirs|, i requires 0 <= i < |dirs| => Some(dirs[i])) + [None])
  {
    var all := seq(|dirs|, i requires 0 <= i < |dirs| => Some(dirs[i]));
    assert (all + [None])[|dirs|] == None;
  }

  lemma NullTerminated(args: seq<Option<string>>, all: seq<string>)
    requires |args| == |all| + 1 && args[|all|].None? && forall i :: 0 <= i < |all| ==> args[i] == Some(all[i])
    ensures UpToNull(args) == all
  {
    UpToNullIs(args, |all|);
  }

  // ---- reading

  predicate Dash(arg: string) {
    arg != [] && arg[0] == '-'
  }

  /** One of the arg_parse functions: no match, the exit, or a value taken from the argument
      after the current one. */
  datatype Parse<+T> = NoMatch | Exits | Match(value: T)

  function ParseStringArg(argv: seq<string>, i: nat, short: string, long: string): Parse<string>
    requires i < |argv|
  {
    if argv[i] != short && argv[i] != long then NoMatch
    else if i + 1 >= |argv| then Exits
    else Match(argv[i + 1])
  }

  function ParseIntArg(argv: seq<string>, i: nat, name: string): Parse<int>
    requires i < |argv|
  {
    match ParseStringArg(argv, i, name, name)
    case NoMatch => NoMatch
    case Exits => Exits
    case Match(text) => var value := ParseInt(text); if value.Some? then Match(value.value) else Exits
  }

  function ToLower(s: string): string {
    seq(|s|, i requires 0 <= i < |s| => if 'A' <= s[i] <= 'Z' then s[i] - 'A' + 'a' else s[i])
  }

  /** __parse_bool_arg: strcmp is taken for equality, so "true" alone is false. */
  function ParseBoolArg(argv: seq<string>, i: nat, name: string): Parse<bool>
    requires i < |argv|
  {
    match ParseStringArg(argv, i, name, name)
    case NoMatch => NoMatch
    case Exits => Exits
    case Match(text) => Match(ToLower(text) != "true")
  }

  /** The monitor's configuration. */
  datatype Config = Config(
    fromDaemon: bool, dirs: seq<string>, readEnd: int, writeEnd: int,
    logFile: string, logSysName: string, logToSys: bool, logToFile: bool)

  const DEFAULT_DIRS: seq<string> := ["/srv/reportman/backup", "/srv/reportman/dashboard", "/srv/reportman/reports"]

  const DEFAULTS: Config :=
    Config(false, DEFAULT_DIRS, -1, -1, "/var/log/reportman/monitor.log", "reportman_mon", false, true)

  /** The configuration so far and the directories named so far. */
  datatype Progress = Progress(config: Config, named: seq<string>)

  /** One turn of the argument loop: the progress after it and the arguments it used up; None
      is an exit. */
  function Turn(argv: seq<string>, i: nat, p: Progress): (r: Option<(Progress, nat)>)
    requires i < |argv|
    ensures r.Some? ==> i < r.value.1 <= |argv|
  {
    var c := p.config;
    if argv[i] == "-fd" || argv[i] == "--from-daemon" then Some((p.(config := c.(fromDaemon := true)), i + 1)) else
    match ParseIntArg(argv, i, "--d-to-c")
    case Exits => None
    case Match(fd) => Some((p.(config := c.(readEnd := fd)), i + 2))
    case NoMatch =>
    match ParseIntArg(argv, i, "--c-to-d")
    case Exits => None
    case Match(fd) => Some((p.(config := c.(writeEnd := fd)), i + 2))
    case NoMatch =>
    match ParseStringArg(argv, i, "-lf", "--log-file")
    case Exits => None
    case Match(file) => Some((p.(config := c.(logFile := file)), i + 2))
    case NoMatch =>
    match ParseStringArg(argv, i, "-ls", "--log-sys-name")
    case Exits => None
    case Match(name) => Some((p.(config := c.(logSysName := name)), i + 2))
    case NoMatch =>
    match ParseBoolArg(argv, i, "--log-to-file")
    case Exits => None
    case Match(b) => Some((p.(config := c.(logToFile := b)), i + 2))
    case NoMatch =>
    match ParseBoolArg(argv, i, "--log-to-sys")
    case Exits => None
    case Match(b) => Some((p.(config := c.(logToSys := b)), i + 2))
    case NoMatch =>
    if Dash(argv[i]) then None
    else
      var named := p.named + [argv[i]];
      Some((Progress(c.(dirs := named), named), i + 1))
  }

  function ParseFrom(argv: seq<string>, i: nat, p: Progress): Option<Progress>
    decreases |argv| - i
  {
    if i >= |argv| then Some(p) else
      var turn := Turn(argv, i, p);
      if turn.None? then None else ParseFrom(argv, turn.value.1, turn.value.0)
  }

  /** __monitor_args, and the growing array that its `dirs` comes to point to. */
  class MonitorArgs {
    var fromDaemon: bool
    var dirs: array<string>
    var noDirs: nat
    var readEnd: int
    var writeEnd: int
    var logFile: string
    var logSysName: string
    var logToSys: bool
    var logToFile: bool

    constructor ()
      ensures Valid() && View() == DEFAULTS && fresh(dirs)
    {
      fromDaemon, readEnd, writeEnd := false, -1, -1;
      logFile, logSysName, logToSys, logToFile := "/var/log/reportman/monitor.log", "reportman_mon", false, true;
      noDirs := 3;
      var defaults := new string[3];
      dirs := defaults;
      new;
      defaults[0], defaults[1], defaults[2] := DEFAULT_DIRS[0], DEFAULT_DIRS[1], DEFAULT_DIRS[2];
      assert defaults[..] == DEFAULT_DIRS;
    }

    ghost predicate Valid()
      reads this
    {
      noDirs <= dirs.Length
    }

    ghost function View(): Config
      requires Valid()
      reads this, dirs
    {
      Config(fromDaemon, dirs[..noDirs], readEnd, writeEnd, logFile, logSysName, logToSys, logToFile)
    }

    /** The next directory goes behind the others, in a larger array when this one is full. */
    static method Appended(strings: array<string>, count: nat, dir: string) returns (result: array<string>)
      requires count <= strings.Length && strings.Length >= 1
      modifies strings
      ensures result == strings || fresh(result)
      ensures count < result.Length && result[..count + 1] == old(strings[..count]) + [dir]
    {
      result := strings;
      if count == strings.Length {
        result := Doubled(strings);
        assert result[..count] == strings[..count];
      }
      result[count] := dir;
    }

    /** realloc to twice the capacity. */
    static method Doubled(strings: array<string>) returns (larger: array<string>)
      ensures fresh(larger) && larger.Length == 2 * strings.Length
      ensures larger[..strings.Length] == strings[..]
    {
      larger := new string[2 * strings.Length];
      for j := 0 to strings.Length
        invariant larger[..j] == strings[..j]
      {
        larger[j] := strings[j];
      }
      assert strings[..strings.Length] == strings[..];
    }

    /** The loop's flags and options, all but the directories; None is an exit, and an
        argument that is a directory uses up nothing. */
    method TakeOption(argv: seq<string>, i: nat, ghost named: seq<string>) returns (used: Option<nat>)
      requires Valid() && i < |argv|
      modifies this`fromDaemon, this`readEnd, this`writeEnd
      modifies this`logFile, this`logSysName, this`logToSys, this`logToFile
      ensures Valid()
      ensures Turn(argv, i, Progress(old(View()), named))
           == if used.None? then None
              else if used.value > 0 then Some((Progress(View(), named), i + used.value))
              else Some((Progress(View().(dirs := named + [argv[i]]), named + [argv[i]]), i + 1))
    {
      if argv[i] == "-fd" || argv[i] == "--from-daemon" {
        fromDaemon := true;
        return Some(1);
      }
      var fd := ParseIntArg(argv, i, "--d-to-c");
      if fd.Exits? {
        return None;
      } else if fd.Match? {
        readEnd := fd.value;
        return Some(2);
      }
      fd := ParseIntArg(argv, i, "--c-to-d");
      if fd.Exits? {
        return None;
      } else if fd.Match? {
        writeEnd := fd.value;
        return Some(2);
      }
      var text := ParseStringArg(argv, i, "-lf", "--log-file");
      if text.Exits? {
        return None;
      } else if text.Match? {
        logFile := text.value;
        return Some(2);
      }
      text := ParseStringArg(argv, i, "-ls", "--log-sys-name");
      if text.Exits? {
        return None;
      } else if text.Match? {
        logSysName := text.value;
        return Some(2);
      }
      var flag := ParseBoolArg(argv, i, "--log-to-file");
      if flag.Exits? {
        return None;
      } else if flag.Match? {
        logToFile := flag.value;
        return Some(2);
      }
      flag := ParseBoolArg(argv, i, "--log-to-sys");
      if flag.Exits? {
        return None;
      } else if flag.Match? {
        logToSys := flag.value;
        return Some(2);
      }
      used := if Dash(argv[i]) then None else Some(0);
    }

    /** `strings` holds the directories named so far, and `dirs` has come to point to it. */
    ghost predicate Collects(strings: array<string>, count: nat)
      reads this
    {
      count <= strings.Length && strings.Length >= 1 && (count > 0 ==> dirs == strings && noDirs == count)
    }

    /** What is still made of the arguments from `i` on. */
    ghost function Rest(argv: seq<string>, i: nat, strings: array<string>, count: nat): Option<Progress>
      requires Valid() && count <= strings.Length
      reads this, dirs, strings
    {
      ParseFrom(argv, i, Progress(View(), strings[..count]))
    }

    /** A directory is appended to the named ones, and `dirs` comes to point to them. */
    method TakeDirectory(dir: string, strings: array<string>, count: nat) returns (strings': array<string>)
      requires Valid() && Collects(strings, count)
      modifies this`dirs, this`noDirs, strings
      ensures Valid() && Collects(strings', count + 1) && (strings' == strings || fresh(strings'))
      ensures strings'[..count + 1] == old(strings[..count]) + [dir]
      ensures View() == old(View()).(dirs := old(strings[..count]) + [dir])
    {
      strings' := Appended(strings, count, dir);
      dirs, noDirs := strings', count + 1;
    }

    /** One turn of the loop over the arguments; None is an exit. */
    method TakeArgument(argv: seq<string>, i: nat, strings: array<string>, count: nat)
      returns (used: Option<nat>, strings': array<string>, count': nat)
      requires Valid() && i < |argv| && Collects(strings, count) && (count == 0 ==> dirs != strings)
      modifies this, strings
      ensures Valid()
      ensures used.Some? ==> used.value > 0 && Collects(strings', count') && (strings' == strings || fresh(strings'))
      ensures count' >= count && (count' == 0 ==> strings' == strings && dirs == old(dirs))
      ensures old(Rest(argv, i, strings, count))
           == if used.None? then None else Rest(argv, i + used.value, strings', count')
    {
      ghost var before := Progress(View(), strings[..count]);
      strings', count' := strings, count;
      used := TakeOption(argv, i, strings[..count]);
      if used == Some(0) {
        strings' := TakeDirectory(argv[i], strings, count);
        count', used := count + 1, Some(1);
      }
      if used.Some? {
        Unroll(argv, i, before, Progress(View(), strings'[..count']), i + used.value);
      }
    }

    /** __configure_monitor_args; false is an exit. */
    method ConfigureMonitorArgs(argv: seq<string>) returns (ok: bool)
      requires Valid()
      modifies this
      ensures Valid()
      ensures var parsed := ParseFrom(argv, 1, Progress(old(View()), []));
        && ok == parsed.Some?
        && (ok ==> View() == parsed.value.config)
    {
      ghost var parsed := ParseFrom(argv, 1, Progress(View(), []));
      var count: nat := 0;
      var strings := new string[1];
      var i := 1;
      assert strings[..0] == [];
      while i < |argv|
        invariant 1 <= i && Valid() && Collects(strings, count) && fresh(strings)
        invariant count == 0 ==> dirs != strings
        invariant Rest(argv, i, strings, count) == parsed
        decreases |argv| - i
      {
        var used;
        used, strings, count := TakeArgument(argv, i, strings, count);
        if used.None? {
          return false;
        }
        i := i + used.value;
      }
      ok := true;
    }
  }

  // ---- the two are inverse

  /** No directory in the configuration or among the named ones starts with a dash. */
  predicate NoDashes(p: Progress) {
    (forall d | d in p.config.dirs :: !Dash(d)) && (forall d | d in p.named :: !Dash(d))
  }

  lemma TurnHasNoDash(argv: seq<string>, i: nat, p: Progress)
    requires NoDashes(p) && i < |argv| && Turn(argv, i, p).Some?
    ensures NoDashes(Turn(argv, i, p).value.0)
  {
  }

  lemma {:induction false} ParsedDirsHaveNoDash(argv: seq<string>, i: nat, p: Progress)
    requires NoDashes(p)
    ensures var parsed := ParseFrom(argv, i, p); parsed.Some? ==> NoDashes(parsed.value)
    decreases |argv| - i
  {
    if i < |argv| && Turn(argv, i, p).Some? {
      TurnHasNoDash(argv, i, p);
      ParsedDirsHaveNoDash(argv, Turn(argv, i, p).value.1, Turn(argv, i, p).value.0);
    }
  }

  /** The last arguments, none of which starts with a dash, are all taken as directories. */
  lemma {:induction false} ParsesDirs(argv: seq<string>, i: nat, p: Progress)
    requires i <= |argv| && forall j :: i <= j < |argv| ==> !Dash(argv[j])
    requires p.named != [] ==> p.config.dirs == p.named
    ensures var named := p.named + argv[i..];
      ParseFrom(argv, i, p) == Some(Progress(if named == [] then p.config else p.config.(dirs := named), named))
    decreases |argv| - i
  {
    if i == |argv| {
      assert p.named + argv[i..] == p.named;
    } else {
      NotAnOption(argv[i]);
      var named := p.named + [argv[i]];
      var next := Progress(p.config.(dirs := named), named);
      assert Turn(argv, i, p) == Some((next, i + 1));
      ParsesDirs(argv, i + 1, next);
      assert named + argv[i + 1..] == p.named + argv[i..];
    }
  }

  lemma NotAnOption(arg: string)
    requires !Dash(arg)
    ensures arg !in {"-fd", "--from-daemon", "--d-to-c", "--c-to-d", "-lf", "--log-file", "-ls", "--log-sys-name"}
    ensures arg !in {"--log-to-file", "--log-to-sys"}
  {
  }

  lemma Unroll(argv: seq<string>, i: nat, p: Progress, next: Progress, j: nat)
    requires i < |argv| && Turn(argv, i, p) == Some((next, j))
    ensures ParseFrom(argv, i, p) == ParseFrom(argv, j, next)
  {
  }

  /** The first six arguments set the three fields that the daemon passes. */
  lemma ParsesFixed(executable: string, dirs: seq<string>, readEnd: nat, writeEnd: nat)
    requires readEnd <= INT_MAX && writeEnd <= INT_MAX
    ensures var argv := Command(executable, dirs, readEnd, writeEnd);
      ParseFrom(argv, 1, Progress(DEFAULTS, []))
      == ParseFrom(argv, 6, Progress(DEFAULTS.(fromDaemon := true, readEnd := readEnd, writeEnd := writeEnd), []))
  {
    var argv := Command(executable, dirs, readEnd, writeEnd);
    ParseDecimal(readEnd);
    ParseDecimal(writeEnd);
    var c1 := DEFAULTS.(fromDaemon := true);
    var c2 := c1.(readEnd := readEnd);
    assert argv[1] == "--from-daemon" && argv[2] == "--d-to-c" && argv[4] == "--c-to-d";
    Unroll(argv, 1, Progress(DEFAULTS, []), Progress(c1, []), 2);
    assert "--d-to-c"[2] != "--from-daemon"[2] && "--c-to-d"[2] != "--from-daemon"[2] && "--c-to-d"[2] != "--d-to-c"[2];
    Unroll(argv, 2, Progress(c1, []), Progress(c2, []), 4);
    Unroll(argv, 4, Progress(c2, []), Progress(c2.(writeEnd := writeEnd), []), 6);
  }

  /** What start_child_process writes is read back as it was meant, pipe descriptors and
      directories in their order (or the default ones when none are passed), if and only if
      no directory starts with a dash. */
  lemma RoundTrip(executable: string, dirs: seq<string>, readEnd: nat, writeEnd: nat)
    requires readEnd <= INT_MAX && writeEnd <= INT_MAX
    ensures ParseFrom(Command(executable, dirs, readEnd, writeEnd), 1, Progress(DEFAULTS, []))
            == Some(Progress(Meant(dirs, readEnd, writeEnd), dirs))
            <==> forall d | d in dirs :: !Dash(d)
  {
    var argv := Command(executable, dirs, readEnd, writeEnd);
    ParsesFixed(executable, dirs, readEnd, writeEnd);
    assert argv[6..] == dirs;
    if forall d | d in dirs :: !Dash(d) {
      ParsesDirs(argv, 6, Progress(DEFAULTS.(fromDaemon := true, readEnd := readEnd, writeEnd := writeEnd), []));
      assert [] + argv[6..] == dirs;
    } else {
      ParsedDirsHaveNoDash(argv, 1, Progress(DEFAULTS, []));
    }
  }

  /** The configuration start_child_process has in mind. */
  function Meant(dirs: seq<string>, readEnd: nat, writeEnd: nat): Config {
    DEFAULTS.(fromDaemon := true, readEnd := readEnd, writeEnd := writeEnd,
              dirs := if dirs == [] then DEFAULT_DIRS else dirs)
  }
}
