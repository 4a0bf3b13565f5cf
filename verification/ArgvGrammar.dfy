/** The grammar of the monitor's command line: which argument lists are accepted, and what each
    argument means, both ways. */
module ArgvGrammar {
  import opened Options
  import opened Argv

  /** An argument, or an option with the argument behind it; `brief`: its short spelling. */
  datatype Item =
    | FromDaemon(brief: bool)
    | ReadEnd(text: string)
    | WriteEnd(text: string)
    | LogFile(brief: bool, text: string)
    | LogName(brief: bool, text: string)
    | ToFile(text: string)
    | ToSys(text: string)
    | Directory(name: string)

  function Spelled(item: Item): seq<string> {
    match item
    case FromDaemon(brief) => [if brief then "-fd" else "--from-daemon"]
    case ReadEnd(text) => ["--d-to-c", text]
    case WriteEnd(text) => ["--c-to-d", text]
    case LogFile(brief, text) => [if brief then "-lf" else "--log-file", text]
    case LogName(brief, text) => [if brief then "-ls" else "--log-sys-name", text]
    case ToFile(text) => ["--log-to-file", text]
    case ToSys(text) => ["--log-to-sys", text]
    case Directory(name) => [name]
  }

  /** Descriptors are numbers, and directories do not start with a dash. */
  predicate Accepted(item: Item) {
    match item
    case ReadEnd(text) => ParseInt(text).Some?
    case WriteEnd(text) => ParseInt(text).Some?
    case Directory(name) => name == [] || name[0] != '-'
    case _ => true
  }

  /** "true" in any mixture of cases, which is the one text that switches an option off. */
  predicate SaysTrue(text: string) {
    |text| == 4 && text[0] in "tT" && text[1] in "rR" && text[2] in "uU" && text[3] in "eE"
  }

  function Meaning(item: Item, p: Progress): Progress
    requires Accepted(item)
  {
    var c := p.config;
    match item
    case FromDaemon(_) => p.(config := c.(fromDaemon := true))
    case ReadEnd(text) => p.(config := c.(readEnd := ParseInt(text).value))
    case WriteEnd(text) => p.(config := c.(writeEnd := ParseInt(text).value))
    case LogFile(_, text) => p.(config := c.(logFile := text))
    case LogName(_, text) => p.(config := c.(logSysName := text))
    case ToFile(text) => p.(config := c.(logToFile := !SaysTrue(text)))
    case ToSys(text) => p.(config := c.(logToSys := !SaysTrue(text)))
    case Directory(name) => Progress(c.(dirs := p.named + [name]), p.named + [name])
  }

  predicate AllAccepted(items: seq<Item>) {
    forall item | item in items :: Accepted(item)
  }

  function SpelledAll(items: seq<Item>): seq<string> {
    if items == [] then [] else Spelled(items[0]) + SpelledAll(items[1..])
  }

  function MeaningAll(items: seq<Item>, p: Progress): Progress
    requires AllAccepted(items)
    decreases |items|
  {
    if items == [] then p else MeaningAll(items[1..], Meaning(items[0], p))
  }

  lemma SaysTrueExactly(text: string)
    ensures ToLower(text) == "true" <==> SaysTrue(text)
  {
    var lower := ToLower(text);
    assert |text| == 4 ==> lower == [lower[0], lower[1], lower[2], lower[3]];
    assert lower == "true" ==> lower[0] == 't' && lower[1] == 'r' && lower[2] == 'u' && lower[3] == 'e';
  }

  lemma TurnIsMeaning(argv: seq<string>, i: nat, item: Item, p: Progress)
    requires Accepted(item) && i + |Spelled(item)| <= |argv| && argv[i..i + |Spelled(item)|] == Spelled(item)
    ensures Turn(argv, i, p) == Some((Meaning(item, p), i + |Spelled(item)|))
  {
    assert argv[i] == argv[i..i + |Spelled(item)|][0];
    match item
    case FromDaemon(_) =>
    case Directory(name) => NotAnOption(name);
    case ReadEnd(text) => assert argv[i + 1] == text;
    case WriteEnd(text) => assert argv[i + 1] == text;
    case LogFile(_, text) => assert argv[i + 1] == text;
    case LogName(_, text) => assert argv[i + 1] == text;
    case ToFile(text) => assert argv[i + 1] == text; SaysTrueExactly(text);
    case ToSys(text) => assert argv[i + 1] == text; SaysTrueExactly(text);
  }

  /** A list of spelled items is accepted and means what they mean, one after the other. */
  lemma {:induction false} ItemsParse(argv: seq<string>, i: nat, items: seq<Item>, p: Progress)
    requires AllAccepted(items) && i <= |argv| && argv[i..] == SpelledAll(items)
    ensures ParseFrom(argv, i, p) == Some(MeaningAll(items, p))
    decreases |items|
  {
    if items != [] {
      var spelled := Spelled(items[0]);
      RestAccepted(items);
      Front(argv, i, spelled, SpelledAll(items[1..]));
      TurnIsMeaning(argv, i, items[0], p);
      Unroll(argv, i, p, Meaning(items[0], p), i + |spelled|);
      ItemsParse(argv, i + |spelled|, items[1..], Meaning(items[0], p));
    }
  }

  lemma RestAccepted(items: seq<Item>)
    requires items != [] && AllAccepted(items)
    ensures Accepted(items[0]) && AllAccepted(items[1..])
  {
    assert items[0] in items && forall item | item in items[1..] :: item in items;
  }

  lemma Front(argv: seq<string>, i: nat, a: seq<string>, b: seq<string>)
    requires i <= |argv| && argv[i..] == a + b
    ensures i + |a| <= |argv| && argv[i..i + |a|] == a && argv[i + |a|..] == b
  {
    assert argv[i..i + |a|] == argv[i..][..|a|];
    assert argv[i + |a|..] == argv[i..][|a|..];
  }

  /** What a turn accepts is an item. */
  lemma TurnIsItem(argv: seq<string>, i: nat, p: Progress) returns (item: Item)
    requires i < |argv| && Turn(argv, i, p).Some?
    ensures Accepted(item) && Turn(argv, i, p).value.1 == i + |Spelled(item)|
    ensures argv[i..i + |Spelled(item)|] == Spelled(item)
  {
    var arg, next := argv[i], if i + 1 < |argv| then argv[i + 1] else "";
    item :=
      if arg == "-fd" || arg == "--from-daemon" then FromDaemon(arg == "-fd")
      else if arg == "--d-to-c" then ReadEnd(next)
      else if arg == "--c-to-d" then WriteEnd(next)
      else if arg == "-lf" || arg == "--log-file" then LogFile(arg == "-lf", next)
      else if arg == "-ls" || arg == "--log-sys-name" then LogName(arg == "-ls", next)
      else if arg == "--log-to-file" then ToFile(next)
      else if arg == "--log-to-sys" then ToSys(next)
      else Directory(arg);
    Slices(argv, i);
  }

  lemma Slices(argv: seq<string>, i: nat)
    requires i < |argv|
    ensures argv[i..i + 1] == [argv[i]]
    ensures i + 1 < |argv| ==> argv[i..i + 2] == [argv[i], argv[i + 1]]
  {
  }

  lemma {:induction false} ParsedIsItems(argv: seq<string>, i: nat, p: Progress) returns (items: seq<Item>)
    requires i <= |argv| && ParseFrom(argv, i, p).Some?
    ensures AllAccepted(items) && argv[i..] == SpelledAll(items)
    decreases |argv| - i
  {
    if i == |argv| {
      items := [];
    } else {
      var turn := Turn(argv, i, p);
      var item := TurnIsItem(argv, i, p);
      Unroll(argv, i, p, turn.value.0, turn.value.1);
      var rest := ParsedIsItems(argv, turn.value.1, turn.value.0);
      items := [item] + rest;
      OneMore(argv, i, item, rest);
    }
  }

  lemma OneMore(argv: seq<string>, i: nat, item: Item, rest: seq<Item>)
    requires Accepted(item) && AllAccepted(rest) && i + |Spelled(item)| <= |argv|
    requires argv[i..i + |Spelled(item)|] == Spelled(item) && argv[i + |Spelled(item)|..] == SpelledAll(rest)
    ensures AllAccepted([item] + rest) && argv[i..] == SpelledAll([item] + rest)
  {
    assert ([item] + rest)[1..] == rest;
    assert argv[i..] == argv[i..i + |Spelled(item)|] + argv[i + |Spelled(item)|..];
  }

  /** The command lines that are accepted, and what they mean: every option in either spelling,
      in any number and any order, the last one of a kind counting, with the directories in
      theirs. All others end the program: an unknown option, an option without the argument it
      needs, and a descriptor that is no number. */
  lemma GrammarExactly(argv: seq<string>, p: Progress, q: Progress)
    requires argv != []
    ensures ParseFrom(argv, 1, p) == Some(q)
       <==> exists items: seq<Item> ::
              argv[1..] == SpelledAll(items) && AllAccepted(items) && q == MeaningAll(items, p)
  {
    if ParseFrom(argv, 1, p).Some? {
      var items := ParsedIsItems(argv, 1, p);
      ItemsParse(argv, 1, items, p);
    }
    if items: seq<Item> :| argv[1..] == SpelledAll(items) && AllAccepted(items) && q == MeaningAll(items, p) {
      ItemsParse(argv, 1, items, p);
    }
  }

  // ---- numbers as strtol takes them

  lemma {:induction false} SpacesSkipped(spaces: string, s: string)
    requires (forall c | c in spaces :: IsSpace(c)) && (s == [] || !IsSpace(s[0]))
    ensures SkipSpace(spaces + s) == s
    decreases |spaces|
  {
    if spaces == [] {
      assert spaces + s == s;
    } else {
      assert (spaces + s)[1..] == spaces[1..] + s && spaces[0] in spaces;
      SpacesSkipped(spaces[1..], s);
    }
  }

  lemma {:induction false} DigitsEnd(digits: string, rest: string, value: nat)
    requires (forall c | c in digits :: IsDigit(c)) && (rest == [] || !IsDigit(rest[0]))
    ensures Digits(digits + rest, value) == Digits(digits, value)
    decreases |digits|
  {
    if digits == [] {
      assert digits + rest == rest;
    } else {
      assert (digits + rest)[1..] == digits[1..] + rest && digits[0] in digits;
      DigitsEnd(digits[1..], rest, 10 * value + (digits[0] - '0') as nat);
    }
  }

  /** A number may have spaces and a sign in front and anything behind that is no digit; it is
      taken at its value if that fits 32 bits with a sign, and refused otherwise. */
  lemma ParseIntExactly(s: string, spaces: string, sign: string, n: nat, rest: string)
    requires s == spaces + (sign + (Decimal(n) + rest))
    requires (forall c | c in spaces :: IsSpace(c)) && sign in {"", "-", "+"} && (rest == [] || !IsDigit(rest[0]))
    ensures ParseInt(s)
         == if -2147483648 <= Signed(sign == "-", n) <= 2147483647 then Some(Signed(sign == "-", n)) else None
  {
    var digits := Decimal(n) + rest;
    DecimalStarts(n, rest);
    SignFirst(sign, digits);
    SpacesSkipped(spaces, sign + digits);
    NumberRead(s, sign + digits, digits, sign != "", n);
  }

  function Signed(minus: bool, n: nat): int {
    if minus then 0 - n else n
  }

  /** strtol behind the spaces. */
  lemma NumberRead(s: string, number: string, digits: string, signed: bool, n: nat)
    requires SkipSpace(s) == number && number != [] && digits != [] && IsDigit(digits[0]) && Digits(digits, 0) == n
    requires if signed then number[0] in {'-', '+'} && number[1..] == digits else number == digits
    ensures ParseInt(s)
         == var value := Signed(signed && number[0] == '-', n);
            if -2147483648 <= value <= 2147483647 then Some(value) else None
  {
  }

  lemma DecimalStarts(n: nat, rest: string)
    requires rest == [] || !IsDigit(rest[0])
    ensures var s := Decimal(n) + rest; s != [] && IsDigit(s[0]) && Digits(s, 0) == n
  {
    assert Decimal(n)[0] in Decimal(n);
    DigitsEnd(Decimal(n), rest, 0);
    DigitsDecimal(n);
  }

  lemma SignFirst(sign: string, digits: string)
    requires sign in {"", "-", "+"} && digits != [] && IsDigit(digits[0])
    ensures var number := sign + digits;
      && !IsSpace(number[0])
      && (sign == "" ==> number == digits && number[0] != '-' && number[0] != '+')
      && (sign != "" ==> number[0] == sign[0] && number[1..] == digits && (sign == "-" <==> number[0] == '-'))
  {
  }

  /** Anything without a digit where the number should be is refused. */
  lemma NoNumberNoValue(spaces: string, sign: string, rest: string)
    requires (forall c | c in spaces :: IsSpace(c)) && sign in {"", "-", "+"}
    requires rest == [] || !IsDigit(rest[0])
    requires rest == [] || sign != "" || (!IsSpace(rest[0]) && rest[0] != '-' && rest[0] != '+')
    ensures ParseInt(spaces + sign + rest).None?
  {
    var number := sign + rest;
    assert spaces + sign + rest == spaces + number;
    SpacesSkipped(spaces, number);
    assert sign != "" ==> number[0] == sign[0] && number[1..] == rest;
    assert sign == "" ==> number == rest;
  }

  /** With no arguments the monitor watches the three roots, has no pipes, and logs to its file
      and not to the system's log. */
  lemma NoArguments(executable: string)
    ensures ParseFrom([executable], 1, Progress(DEFAULTS, []))
         == Some(Progress(
              Config(false, ["/srv/reportman/backup", "/srv/reportman/dashboard", "/srv/reportman/reports"], -1, -1,
                     "/var/log/reportman/monitor.log", "reportman_mon", false, true), []))
  {
  }
}
