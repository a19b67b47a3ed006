/** The flags of gtest.cc: which command line arguments set one, to what value, which ask for help,
    and what the child of a death test is told by its arguments.  An argument is a C string, which
    has no NUL in it; numbers are read as strtol reads them and refused if they do not fit in 32
    bits, and whatever sets a flag twice sets it to the second value. */
module Flags {
  import opened Basics
  import opened Digits
  import opened Splitting
  import opened CommandLine
  import opened DeathTestFlag

  datatype FlagName =
    | AlsoRunDisabledTests | BreakOnFailure | CatchExceptions | Color | DeathTestStyle | DeathTestUseFork
    | Filter | InternalRunDeathTest | ListTests | Output | PrintTime | RandomSeed | Repeat | Shuffle
    | StackTraceDepth | StreamResultTo | ThrowOnFailure

  datatype Kind = BoolFlag | Int32Flag | StringFlag

  datatype Value = Bool(b: bool) | Int32(n: int) | Text(s: string)

  function NameOf(f: FlagName): string {
    match f
    case AlsoRunDisabledTests => "also_run_disabled_tests"
    case BreakOnFailure => "break_on_failure"
    case CatchExceptions => "catch_exceptions"
    case Color => "color"
    case DeathTestStyle => "death_test_style"
    case DeathTestUseFork => "death_test_use_fork"
    case Filter => "filter"
    case InternalRunDeathTest => "internal_run_death_test"
    case ListTests => "list_tests"
    case Output => "output"
    case PrintTime => "print_time"
    case RandomSeed => "random_seed"
    case Repeat => "repeat"
    case Shuffle => "shuffle"
    case StackTraceDepth => "stack_trace_depth"
    case StreamResultTo => "stream_result_to"
    case ThrowOnFailure => "throw_on_failure"
  }

  function KindOf(f: FlagName): Kind {
    match f
    case RandomSeed | Repeat | StackTraceDepth => Int32Flag
    case Color | DeathTestStyle | Filter | InternalRunDeathTest | Output | StreamResultTo => StringFlag
    case _ => BoolFlag
  }

  /** The order in which the flags are tried. */
  const ORDER: seq<FlagName> :=
    [AlsoRunDisabledTests, BreakOnFailure, CatchExceptions, Color, DeathTestStyle, DeathTestUseFork, Filter,
     InternalRunDeathTest, ListTests, Output, PrintTime, RandomSeed, Repeat, Shuffle, StackTraceDepth,
     StreamResultTo, ThrowOnFailure]

  const PREFIX := "gtest_"
  const PREFIX_DASH := "gtest-"
  const PREFIX_INTERNAL := "gtest_internal_"

  /** An argument that names a flag. */
  function Named(flag: string): string {
    "--" + PREFIX + flag
  }

  /** The value part of an argument, which is a C string; None if it is not about the flag. */
  function ParseFlagValue(str: string, flag: string, defOptional: bool): Option<string> {
    if !(Named(flag) <= str) then None
    else
      var end := str[|Named(flag)|..];
      if defOptional && end == "" then Some("")
      else if end == "" || end[0] != '=' then None
      else Some(end[1..])
  }

  lemma ParseFlagValueIff(str: string, flag: string, defOptional: bool, v: string)
    ensures ParseFlagValue(str, flag, defOptional) == Some(v) <==>
      str == Named(flag) + (['='] + v) || (defOptional && v == "" && str == Named(flag))
  {
    hide Named;
    var name := Named(flag);
    if name <= str {
      assert str == name + str[|name|..];
      assert str[|name|..] != "" ==> str[|name|..] == [str[|name|..][0]] + str[|name|..][1..];
    }
    var full := name + (['='] + v);
    assert name <= full && full[|name|..] == ['='] + v && (['='] + v)[1..] == v;
    if str == name {
      assert str[|name|..] == "";
    }
  }

  // ---------- Values ----------

  predicate IsSpace(c: char) {
    c == ' ' || 9 <= c as int <= 13
  }

  /** The blanks that strtol skips. */
  function Blanks(s: string): (n: nat)
    ensures n <= |s|
  {
    if s == "" || !IsSpace(s[0]) then 0 else 1 + Blanks(s[1..])
  }

  /** The whole number that strtol finds if it uses up the text: blanks, a sign and digits. */
  function Strtol(s: string): Option<int> {
    if s == "" then Some(0)
    else
      var t := s[Blanks(s)..];
      var signed := t != "" && (t[0] == '-' || t[0] == '+');
      var digits := if signed then t[1..] else t;
      if digits == "" || LeadingDigits(digits) != |digits| then None
      else
        LeadingDigitsIff(digits);
        var n: int := DecNumber(digits);
        Some(if t[0] == '-' then -n else n)
  }

  const INT32_MAX := 0x7FFF_FFFF

  /** ParseInt32: what lies outside the range is refused. */
  function ParseInt32(s: string): Option<int> {
    match Strtol(s)
    case None => None
    case Some(n) => if -INT32_MAX - 1 <= n <= INT32_MAX then Some(n) else None
  }

  /** What a flag is set to by an argument, if that is about the flag and has a proper value. */
  function Sets(f: FlagName, arg: string): Option<Value> {
    match ParseFlagValue(arg, NameOf(f), KindOf(f) == BoolFlag)
    case None => None
    case Some(v) =>
      match KindOf(f)
      case BoolFlag => Some(Bool(!(v != "" && (v[0] == '0' || v[0] == 'f' || v[0] == 'F'))))
      case StringFlag => Some(Text(v))
      case Int32Flag =>
        match ParseInt32(v)
        case None => None
        case Some(n) => Some(Int32(n))
  }

  /** The first flag that takes the argument. */
  function FirstToTake(flags: seq<FlagName>, arg: string): Option<(FlagName, Value)> {
    if flags == [] then None
    else
      match Sets(flags[0], arg)
      case None => FirstToTake(flags[1..], arg)
      case Some(v) => Some((flags[0], v))
  }

  function Recognized(arg: string): Option<(FlagName, Value)> {
    FirstToTake(ORDER, arg)
  }

  // ---------- One flag at most takes an argument ----------

  function LengthOf(f: FlagName): nat {
    match f
    case AlsoRunDisabledTests | InternalRunDeathTest => 23
    case DeathTestUseFork => 19
    case StackTraceDepth => 17
    case BreakOnFailure | CatchExceptions | DeathTestStyle | StreamResultTo | ThrowOnFailure => 16
    case RandomSeed => 11
    case ListTests | PrintTime => 10
    case Shuffle => 7
    case Filter | Output | Repeat => 6
    case Color => 5
  }

  function InitialOf(f: FlagName): char {
    match f
    case AlsoRunDisabledTests => 'a'
    case BreakOnFailure => 'b'
    case CatchExceptions | Color => 'c'
    case DeathTestStyle | DeathTestUseFork => 'd'
    case Filter => 'f'
    case InternalRunDeathTest => 'i'
    case ListTests => 'l'
    case Output => 'o'
    case PrintTime => 'p'
    case RandomSeed | Repeat => 'r'
    case Shuffle | StackTraceDepth | StreamResultTo => 's'
    case ThrowOnFailure => 't'
  }

  lemma NameHas(f: FlagName)
    ensures |NameOf(f)| == LengthOf(f) && NameOf(f)[0] == InitialOf(f)
  {
  }

  lemma InOrder(f: FlagName)
    ensures f in ORDER
  {
    var k :=
      match f
      case AlsoRunDisabledTests => 0
      case BreakOnFailure => 1
      case CatchExceptions => 2
      case Color => 3
      case DeathTestStyle => 4
      case DeathTestUseFork => 5
      case Filter => 6
      case InternalRunDeathTest => 7
      case ListTests => 8
      case Output => 9
      case PrintTime => 10
      case RandomSeed => 11
      case Repeat => 12
      case Shuffle => 13
      case StackTraceDepth => 14
      case StreamResultTo => 15
      case ThrowOnFailure => 16;
    assert ORDER[k] == f;
  }

  lemma NamesDiffer(f: FlagName, g: FlagName)
    requires NameOf(f) == NameOf(g)
    ensures f == g
  {
    hide NameOf;
    NameHas(f);
    NameHas(g);
  }

  lemma LongNameIsWord(f: FlagName)
    requires LengthOf(f) > 16
    ensures '=' !in NameOf(f)
  {
  }

  lemma ShortNameIsWord(f: FlagName)
    requires LengthOf(f) <= 16
    ensures '=' !in NameOf(f)
  {
  }

  lemma NameIsWord(f: FlagName)
    ensures '=' !in NameOf(f)
  {
    hide *;
    if LengthOf(f) > 16 {
      LongNameIsWord(f);
    } else {
      ShortNameIsWord(f);
    }
  }

  lemma NamedIsWord(f: FlagName)
    ensures '=' !in Named(NameOf(f))
  {
    hide NameOf;
    NameIsWord(f);
  }

  /** What stands before the first equals sign names the flag. */
  lemma TakenIsNamed(f: FlagName, arg: string)
    requires Sets(f, arg).Some?
    ensures Before(arg, '=') == Named(NameOf(f))
  {
    hide NameOf, Named, ParseInt32, ParseFlagValue;
    var v := ParseFlagValue(arg, NameOf(f), KindOf(f) == BoolFlag).value;
    ParseFlagValueIff(arg, NameOf(f), KindOf(f) == BoolFlag, v);
    NamedIsWord(f);
    BeforeIs(Named(NameOf(f)), '=', v);
    BeforeAll(Named(NameOf(f)), '=');
  }

  lemma SameNamed(a: string, b: string)
    requires Named(a) == Named(b)
    ensures a == b
  {
    assert Named(a)[|"--" + PREFIX|..] == a && Named(b)[|"--" + PREFIX|..] == b;
  }

  lemma OneFlagTakes(f: FlagName, g: FlagName, arg: string)
    requires Sets(f, arg).Some? && Sets(g, arg).Some?
    ensures f == g
  {
    hide *;
    TakenIsNamed(f, arg);
    TakenIsNamed(g, arg);
    SameNamed(NameOf(f), NameOf(g));
    NamesDiffer(f, g);
  }

  lemma {:induction false} FirstIsOnly(flags: seq<FlagName>, arg: string, f: FlagName)
    requires f in flags && Sets(f, arg).Some?
    ensures FirstToTake(flags, arg) == Some((f, Sets(f, arg).value))
  {
    hide Sets;
    if Sets(flags[0], arg).Some? {
      OneFlagTakes(f, flags[0], arg);
    } else {
      FirstIsOnly(flags[1..], arg, f);
    }
  }

  lemma {:induction false} FirstTakes(flags: seq<FlagName>, arg: string)
    ensures FirstToTake(flags, arg).Some? ==>
      var (f, v) := FirstToTake(flags, arg).value; Sets(f, arg) == Some(v)
  {
    hide Sets;
    if flags != [] && Sets(flags[0], arg).None? {
      FirstTakes(flags[1..], arg);
    }
  }

  /** Whatever the order in which the flags are tried, an argument sets the one flag that it
      names, to the value that it gives. */
  lemma RecognizedIff(arg: string, f: FlagName, v: Value)
    ensures Recognized(arg) == Some((f, v)) <==> Sets(f, arg) == Some(v)
  {
    hide Sets, FirstToTake, ORDER;
    InOrder(f);
    if Sets(f, arg).Some? {
      FirstIsOnly(ORDER, arg, f);
    }
    FirstTakes(ORDER, arg);
  }

  // ---------- Help ----------

  /** What is left of an argument after its dashes or its slash. */
  function SkipDashes(arg: string): Option<string> {
    if "--" <= arg then Some(arg[2..])
    else if "-" <= arg || "/" <= arg then Some(arg[1..])
    else None
  }

  predicate HasGoogleTestFlagPrefix(arg: string) {
    match SkipDashes(arg)
    case None => false
    case Some(u) => IsAboutGTest(u)
  }

  /** The text after the dashes is about gtest, but not internal to it. */
  predicate IsAboutGTest(u: string) {
    !(PREFIX_INTERNAL <= u) && (PREFIX <= u || PREFIX_DASH <= u)
  }

  predicate IsDash(d: string) {
    d == "--" || d == "-" || d == "/"
  }

  /** The order in which the dashes are skipped does not matter. */
  lemma PrefixIff(arg: string)
    ensures HasGoogleTestFlagPrefix(arg) <==>
      exists k :: 0 < k <= 2 && k <= |arg| && IsDash(arg[..k]) && IsAboutGTest(arg[k..])
  {
    hide IsAboutGTest;
    DashesAreNot(arg);
    if "--" <= arg {
      assert arg[..2] == "--";
    } else if "-" <= arg {
      assert arg[..1] == "-";
    } else if "/" <= arg {
      assert arg[..1] == "/";
    }
    if k :| 0 < k <= 2 && k <= |arg| && IsDash(arg[..k]) && IsAboutGTest(arg[k..]) {
      assert arg == arg[..k] + arg[k..];
    }
  }

  lemma DashesAreNot(arg: string)
    ensures "--" <= arg ==> !IsAboutGTest(arg[1..])
  {
    if "--" <= arg {
      var u := arg[1..];
      assert u[0] == "--"[1] == '-' && PREFIX[0] == 'g' && PREFIX_DASH[0] == 'g';
    }
  }

  predicate AsksForHelp(arg: string) {
    arg == "--help" || arg == "-h" || arg == "-?" || arg == "/?" || HasGoogleTestFlagPrefix(arg)
  }

  predicate IsFlag(arg: string) {
    Recognized(arg).Some?
  }

  /** The flags, with what an argument sets. */
  function Store(flags: map<FlagName, Value>, arg: string): map<FlagName, Value> {
    match Recognized(arg)
    case None => flags
    case Some(r) => flags[r.0 := r.1]
  }

  lemma StoreOneMore(flags: map<FlagName, Value>, args: seq<string>, arg: string)
    ensures Stored(Store, flags, Those(args + [arg], IsFlag, true))
            == Store(Stored(Store, flags, Those(args, IsFlag, true)), arg)
  {
    hide Recognized, Those, Stored;
    ThoseAppend(args, arg, IsFlag, true);
    if IsFlag(arg) {
      StoredAppend(Store, flags, Those(args, IsFlag, true), arg);
    } else {
      assert Those(args, IsFlag, true) + [] == Those(args, IsFlag, true);
    }
  }

  lemma HelpMeans(args: seq<string>)
    ensures Helped(After(args), IsFlag, AsksForHelp)
            <==> exists k :: 0 < k < |args| && !IsFlag(args[k]) && AsksForHelp(args[k])
  {
    hide IsFlag, AsksForHelp, Helped;
    var rest := After(args);
    HelpedMeans(rest, IsFlag, AsksForHelp);
    if k :| 0 < k < |args| && !IsFlag(args[k]) && AsksForHelp(args[k]) {
      assert !IsFlag(rest[k - 1]) && AsksForHelp(rest[k - 1]);
    }
    if Helped(rest, IsFlag, AsksForHelp) {
      var k :| 0 <= k < |rest| && !IsFlag(rest[k]) && AsksForHelp(rest[k]);
      assert !IsFlag(args[k + 1]) && AsksForHelp(args[k + 1]);
    }
  }

  /** What is left of the arguments, and how the flags and the request for help come out. */
  method ParseGoogleTestFlagsOnly(argc: nat, argv: array<Option<string>>, init: map<FlagName, Value>,
                                  ghost args: seq<string>)
    returns (count: nat, flags: map<FlagName, Value>, helpFlag: bool)
    requires |args| == argc < argv.Length && HoldsArgs(argv, 0, args) && argv[argc] == None
    modifies argv
    ensures count == |Left(args, IsFlag)| && HoldsArgs(argv, 0, Left(args, IsFlag)) && argv[count] == None
    ensures forall k :: argc < k < argv.Length ==> argv[k] == old(argv[k])
    ensures flags == Stored(Store, init, Those(After(args), IsFlag, true))
    ensures helpFlag <==> exists k :: 0 < k < |args| && !IsFlag(args[k]) && AsksForHelp(args[k])
  {
    hide HoldsArgs, Left, Those, Stored, IsFlag, AsksForHelp, Store;
    count, flags, helpFlag := ParseGoogleTestFlagsOnlyImpl(argc, argv, IsFlag, AsksForHelp, Store, init, args);
    HelpMeans(args);
  }

  /** A flag ends up as the last argument that names it says. */
  lemma {:induction false} LastOneCounts(flags: map<FlagName, Value>, args: seq<string>, k: nat, f: FlagName)
    requires k < |args| && Sets(f, args[k]).Some?
    requires forall j :: k < j < |args| ==> Sets(f, args[j]).None?
    ensures var end := Stored(Store, flags, Those(args, IsFlag, true));
            f in end && end[f] == Sets(f, args[k]).value
    decreases |args|
  {
    hide Sets, Recognized, Those, Stored;
    var n := |args| - 1;
    var before, last := args[..n], args[n];
    assert args == before + [last];
    StoreOneMore(flags, before, last);
    if k == n {
      RecognizedIff(last, f, Sets(f, last).value);
    } else {
      LastOneCounts(flags, before, k, f);
      NotRecognized(last, f);
    }
  }

  lemma NotRecognized(arg: string, f: FlagName)
    requires Sets(f, arg).None?
    ensures Recognized(arg).Some? ==> Recognized(arg).value.0 != f
  {
    hide Sets, Recognized;
    if Recognized(arg).Some? {
      RecognizedIff(arg, Recognized(arg).value.0, Recognized(arg).value.1);
    }
  }

  // ---------- The arguments of the child of a death test ----------

  function Argument(f: FlagName, v: string): string {
    Named(NameOf(f)) + (['='] + v)
  }

  lemma ArgumentSets(f: FlagName, v: string)
    requires KindOf(f) == StringFlag
    ensures Sets(f, Argument(f, v)) == Some(Text(v))
  {
    hide NameOf, Named, ParseFlagValue, ParseInt32;
    ParseFlagValueIff(Argument(f, v), NameOf(f), false, v);
  }

  lemma OtherNotSet(f: FlagName, g: FlagName, v: string)
    requires KindOf(f) == StringFlag && f != g
    ensures Sets(g, Argument(f, v)).None?
  {
    hide *;
    ArgumentSets(f, v);
    if Sets(g, Argument(f, v)).Some? {
      OneFlagTakes(f, g, Argument(f, v));
    }
  }

  /** Whatever flags the parent was started with, the child runs the one death test: its own
      arguments come last, they are read as the filter and the four values that the parent
      printed. */
  lemma ChildIsTold(flags: map<FlagName, Value>, args: seq<string>, filter: string,
                    file: string, line: nat, index: nat, writeFd: nat)
    requires line <= INT_MAX && index <= INT_MAX && writeFd <= INT_MAX && '|' !in file && '\0' !in file
    ensures var all := args + [Argument(Filter, filter),
                               Argument(InternalRunDeathTest, PrintedFlag(file, line, index, writeFd))];
            var end := Stored(Store, flags, Those(all, IsFlag, true));
            && Filter in end && end[Filter] == Text(filter)
            && InternalRunDeathTest in end && end[InternalRunDeathTest].Text?
            && ParsedFlag(end[InternalRunDeathTest].s) == Flag(file, line, index, writeFd)
  {
    hide Sets, Argument, PrintedFlag, ParsedFlag, Those, Stored;
    var printed := PrintedFlag(file, line, index, writeFd);
    var a, b := Argument(Filter, filter), Argument(InternalRunDeathTest, printed);
    var n := |args|;
    var all := args + [a, b];
    assert all[n] == a && all[n + 1] == b;
    ArgumentSets(Filter, filter);
    ArgumentSets(InternalRunDeathTest, printed);
    OtherNotSet(InternalRunDeathTest, Filter, printed);
    LastOneCounts(flags, all, n, Filter);
    LastOneCounts(flags, all, n + 1, InternalRunDeathTest);
    FlagReadsBack(file, line, index, writeFd);
  }
}
