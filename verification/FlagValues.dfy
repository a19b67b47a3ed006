/** Which argument gives which flag which value, spelled out, and what flags end up with. */
module FlagValues {
  import opened Basics
  import opened Digits
  import opened Splitting
  import opened CommandLine
  import opened DeathTestFlag
  import opened Flags

  /** The argument that names a flag. */
  function Spelling(f: FlagName): string {
    "--gtest_" +
      match f
      case AlsoRunDisabledTests => "also_run_disabled_tests"
      case BreakOnFailure => "break_on_failure"
      case CatchExceptions => "catch_exceptions"
      case Color => "color"
      case DeathTestStyle => "death_test_style"
      case DeathTestUseFork => "death_test_use_fork"
      case Filter => "filter"
      case InternalRunDeathTest => "internal_run_death_test"
      case ListTests => "list_tests"
      case Output => "output"
      case PrintTime => "print_time"
      case RandomSeed => "random_seed"
      case Repeat => "repeat"
      case Shuffle => "shuffle"
      case StackTraceDepth => "stack_trace_depth"
      case StreamResultTo => "stream_result_to"
      case ThrowOnFailure => "throw_on_failure"
  }

  predicate IsNumber(f: FlagName) {
    f == RandomSeed || f == Repeat || f == StackTraceDepth
  }

  predicate IsText(f: FlagName) {
    f == Color || f == DeathTestStyle || f == Filter || f == InternalRunDeathTest || f == Output || f == StreamResultTo
  }

  /** Text that starts with 0, f or F switches a flag off. */
  predicate SaysNo(v: string) {
    v != "" && v[0] in ['0', 'f', 'F']
  }

  ghost predicate BlankText(s: string) {
    forall i :: 0 <= i < |s| ==> s[i] as int == 32 || 9 <= s[i] as int <= 13
  }

  ghost predicate SignedDigits(sign: string, digits: string, n: int) {
    && digits != "" && AllDigits(digits)
    && (if sign == "-" then n + DecNumber(digits) == 0 else (sign == "" || sign == "+") && n == DecNumber(digits))
  }

  /** The numeral of n, with blanks and a sign in front; no text at all is 0. */
  ghost predicate Numeral(v: string, n: int) {
    || (v == "" && n == 0)
    || exists blanks, sign, digits ::
         v == blanks + (sign + digits) && BlankText(blanks) && SignedDigits(sign, digits, n)
  }

  predicate Fits(n: int) {
    -2147483648 <= n <= 2147483647
  }

  function Given(f: FlagName, v: string): string {
    Spelling(f) + (['='] + v)
  }

  /** The argument gives the flag the value. */
  ghost predicate Gives(arg: string, f: FlagName, value: Value) {
    match value
    case Int32(n) => IsNumber(f) && Fits(n) && exists v :: arg == Given(f, v) && Numeral(v, n)
    case Text(s) => IsText(f) && arg == Given(f, s)
    case Bool(b) => !IsNumber(f) && !IsText(f) &&
                    ((b && arg == Spelling(f)) || exists v :: arg == Given(f, v) && b == !SaysNo(v))
  }

  // ---------- The names ----------

  lemma Spelled(f: FlagName)
    ensures Spelling(f) == Named(NameOf(f))
  {
    assert "--gtest_" == "--" + "gtest_";
    assert Spelling(f) == "--gtest_" + NameOf(f);
  }

  lemma Kinds(f: FlagName)
    ensures KindOf(f) == if IsNumber(f) then Int32Flag else if IsText(f) then StringFlag else BoolFlag
  {
  }

  // ---------- Numbers ----------

  lemma {:induction false} BlanksAre(blanks: string, t: string)
    requires BlankText(blanks) && (t != "" ==> !IsSpace(t[0]))
    ensures Blanks(blanks + t) == |blanks|
  {
    if blanks == "" {
      assert blanks + t == t;
    } else {
      assert (blanks + t)[1..] == blanks[1..] + t && (blanks + t)[0] == blanks[0];
      BlanksAre(blanks[1..], t);
    }
  }

  lemma {:induction false} BlanksTaken(s: string)
    ensures BlankText(s[..Blanks(s)]) && (Blanks(s) < |s| ==> !IsSpace(s[Blanks(s)]))
  {
    if s != "" && IsSpace(s[0]) {
      BlanksTaken(s[1..]);
      assert s[..Blanks(s)] == [s[0]] + s[1..][..Blanks(s[1..])];
    }
  }

  lemma NumeralRead(v: string, blanks: string, sign: string, digits: string, n: int)
    requires v == blanks + (sign + digits) && BlankText(blanks) && SignedDigits(sign, digits, n)
    ensures Strtol(v) == Some(n)
  {
    hide DecNumber;
    var t := sign + digits;
    assert t != "" && (sign == "" ==> t == digits) && (sign != "" ==> t[0] == sign[0] && t[1..] == digits);
    assert IsDigit(digits[0]);
    BlanksAre(blanks, t);
    assert v[|blanks|..] == t;
    LeadingDigitsIff(digits);
  }

  lemma ReadNumeral(v: string, n: int)
    requires Strtol(v) == Some(n)
    ensures Numeral(v, n)
  {
    hide DecNumber;
    if v != "" {
      var blanks := v[..Blanks(v)];
      var t := v[Blanks(v)..];
      BlanksTaken(v);
      assert v == blanks + t;
      if t != "" && (t[0] == '-' || t[0] == '+') {
        var sign, digits := [t[0]], t[1..];
        assert t == sign + digits;
        LeadingDigitsIff(digits);
        assert sign == "-" <==> t[0] == '-';
        assert SignedDigits(sign, digits, n);
      } else {
        LeadingDigitsIff(t);
        assert t == "" + t;
        assert SignedDigits("", t, n);
      }
    }
  }

  lemma NumberIff(v: string, n: int)
    ensures ParseInt32(v) == Some(n) <==> Fits(n) && Numeral(v, n)
  {
    hide Strtol, BlankText, SignedDigits;
    if Numeral(v, n) {
      if v == "" && n == 0 {
        assert Strtol("") == Some(0) by { NoText(); }
      } else {
        var blanks, sign, digits :| v == blanks + (sign + digits) && BlankText(blanks) && SignedDigits(sign, digits, n);
        NumeralRead(v, blanks, sign, digits, n);
      }
    }
    if Strtol(v) == Some(n) {
      ReadNumeral(v, n);
    }
  }

  lemma NoText()
    ensures Strtol("") == Some(0)
  {
  }

  // ---------- What arguments give ----------

  /** The value part of an argument. */
  lemma ValuePart(arg: string, f: FlagName, v: string)
    ensures ParseFlagValue(arg, NameOf(f), KindOf(f) == BoolFlag) == Some(v) <==>
      arg == Given(f, v) || (!IsNumber(f) && !IsText(f) && v == "" && arg == Spelling(f))
  {
    hide NameOf, Named, Spelling, ParseFlagValue;
    Kinds(f);
    Spelled(f);
    ParseFlagValueIff(arg, NameOf(f), KindOf(f) == BoolFlag, v);
  }

  /** An argument sets a flag exactly as it says. */
  lemma SetsIff(arg: string, f: FlagName, value: Value)
    ensures Sets(f, arg) == Some(value) <==> Gives(arg, f, value)
  {
    hide NameOf, Named, Spelling, Given, ParseFlagValue, ParseInt32, Numeral, KindOf, Fits;
    Kinds(f);
    var part := ParseFlagValue(arg, NameOf(f), KindOf(f) == BoolFlag);
    if part.Some? {
      ValuePart(arg, f, part.value);
      if value.Int32? {
        NumberIff(part.value, value.n);
      }
    }
    if Gives(arg, f, value) {
      GivenIsSet(arg, f, value);
    }
  }

  lemma GivenIsSet(arg: string, f: FlagName, value: Value)
    requires Gives(arg, f, value)
    ensures Sets(f, arg) == Some(value)
  {
    hide NameOf, Named, Spelling, Given, ParseFlagValue, ParseInt32, Numeral, KindOf, Fits;
    Kinds(f);
    match value
    case Text(s) =>
      ValuePart(arg, f, s);
    case Int32(n) =>
      var v :| arg == Given(f, v) && Numeral(v, n);
      ValuePart(arg, f, v);
      NumberIff(v, n);
    case Bool(b) =>
      if b && arg == Spelling(f) {
        ValuePart(arg, f, "");
      } else {
        var v :| arg == Given(f, v) && b == !SaysNo(v);
        ValuePart(arg, f, v);
      }
  }

  /** And no argument sets any other flag. */
  lemma RecognizedAsGiven(arg: string, f: FlagName, value: Value)
    ensures Recognized(arg) == Some((f, value)) <==> Gives(arg, f, value)
  {
    hide Sets, Gives, Recognized;
    RecognizedIff(arg, f, value);
    SetsIff(arg, f, value);
  }

  /** A switch alone is on; with a value it is off exactly if that starts with 0, f or F. */
  lemma SwitchIsSet(f: FlagName, v: string)
    requires !IsNumber(f) && !IsText(f)
    ensures Recognized(Spelling(f)) == Some((f, Bool(true)))
    ensures Recognized(Spelling(f) + (['='] + v)) == Some((f, Bool(v == "" || v[0] !in ['0', 'f', 'F'])))
  {
    hide Recognized, Spelling;
    RecognizedAsGiven(Spelling(f), f, Bool(true));
    RecognizedAsGiven(Given(f, v), f, Bool(!SaysNo(v)));
  }

  function Decimal(n: int): string {
    if n < 0 then ['-'] + DecText(-n) else DecText(n)
  }

  /** The decimal text of a number sets it if it fits in 32 bits, and nothing otherwise. */
  lemma NumberIsSet(f: FlagName, n: int)
    requires IsNumber(f)
    ensures Recognized(Spelling(f) + (['='] + Decimal(n)))
         == if -2147483648 <= n <= 2147483647 then Some((f, Int32(n))) else None
  {
    hide Recognized, Spelling, Strtol, NameOf, KindOf, ParseFlagValue, DecText, DecNumber;
    var digits := DecText(if n < 0 then -n else n);
    var sign := if n < 0 then "-" else "";
    DecReadsBack(if n < 0 then -n else n);
    assert SignedDigits(sign, digits, n);
    assert Decimal(n) == sign + digits == "" + (sign + digits);
    assert BlankText("");
    NumeralRead(Decimal(n), "", sign, digits, n);
    var arg := Given(f, Decimal(n));
    if Fits(n) {
      assert Numeral(Decimal(n), n);
      RecognizedAsGiven(arg, f, Int32(n));
    } else if Recognized(arg).Some? {
      Misfit(f, n, arg, Recognized(arg).value.0, Recognized(arg).value.1);
    }
  }

  lemma Misfit(f: FlagName, n: int, arg: string, g: FlagName, value: Value)
    requires IsNumber(f) && arg == Given(f, Decimal(n)) && Strtol(Decimal(n)) == Some(n) && !Fits(n)
    ensures Recognized(arg) != Some((g, value))
  {
    hide Recognized, Spelling, Strtol, NameOf, KindOf, ParseFlagValue, Decimal;
    Kinds(f);
    RecognizedIff(arg, g, value);
    ValuePart(arg, f, Decimal(n));
    if Sets(g, arg).Some? {
      NamesItsFlag(f, Decimal(n), g);
    }
  }

  lemma NamesItsFlag(f: FlagName, v: string, g: FlagName)
    requires Sets(g, Given(f, v)).Some?
    ensures f == g
  {
    hide Sets, NameOf, Named, Spelling;
    Spelled(f);
    NamedIsWord(f);
    BeforeIs(Named(NameOf(f)), '=', v);
    TakenIsNamed(g, Given(f, v));
    SameNamed(NameOf(f), NameOf(g));
    NamesDiffer(f, g);
  }

  // ---------- What the flags end up with ----------

  ghost predicate Concerns(arg: string, f: FlagName) {
    exists value :: Gives(arg, f, value)
  }

  lemma ConcernsIff(arg: string, f: FlagName)
    ensures Concerns(arg, f) <==> Sets(f, arg).Some?
  {
    hide Gives, Sets;
    if Sets(f, arg).Some? {
      SetsIff(arg, f, Sets(f, arg).value);
    }
    if value :| Gives(arg, f, value) {
      SetsIff(arg, f, value);
    }
  }

  /** A flag ends up with what the last argument that gives it a value gives it. */
  lemma LastGivenCounts(flags: map<FlagName, Value>, args: seq<string>, k: nat, f: FlagName, value: Value)
    requires k < |args| && Gives(args[k], f, value)
    requires forall j :: k < j < |args| ==> !Concerns(args[j], f)
    ensures var end := Stored(Store, flags, Those(args, IsFlag, true));
            f in end && end[f] == value
  {
    hide Gives, Concerns, Sets, Stored, Those, Store, IsFlag;
    SetsIff(args[k], f, value);
    forall j | k < j < |args|
      ensures Sets(f, args[j]).None?
    {
      ConcernsIff(args[j], f);
    }
    LastOneCounts(flags, args, k, f);
  }

  /** A flag that no argument gives a value keeps what it had. */
  lemma {:induction false} NotGivenKeeps(flags: map<FlagName, Value>, args: seq<string>, f: FlagName)
    requires forall j :: 0 <= j < |args| ==> !Concerns(args[j], f)
    ensures var end := Stored(Store, flags, Those(args, IsFlag, true));
            (f in end <==> f in flags) && (f in flags ==> end[f] == flags[f])
    decreases |args|
  {
    hide Gives, Concerns, Sets, Recognized, Stored, Those;
    if args == [] {
      assert Stored(Store, flags, Those([], IsFlag, true)) == flags by { NothingStored(flags); }
    } else {
      var n := |args| - 1;
      assert args == args[..n] + [args[n]];
      ConcernsIff(args[n], f);
      NotRecognized(args[n], f);
      StoreOneMore(flags, args[..n], args[n]);
      NotGivenKeeps(flags, args[..n], f);
    }
  }

  lemma NothingStored(flags: map<FlagName, Value>)
    ensures Stored(Store, flags, Those([], IsFlag, true)) == flags
  {
  }

  /** An argument is a flag exactly if it gives one a value; the others stay. */
  lemma IsFlagIff(arg: string)
    ensures IsFlag(arg) <==> exists f :: Concerns(arg, f)
  {
    hide Sets, Recognized, Gives;
    if IsFlag(arg) {
      var (f, value) := Recognized(arg).value;
      RecognizedAsGiven(arg, f, value);
      assert Concerns(arg, f);
    }
    if f, value :| Gives(arg, f, value) {
      RecognizedAsGiven(arg, f, value);
    }
  }

  /** Which arguments ask for help. */
  lemma HelpIff(arg: string)
    ensures AsksForHelp(arg) <==>
      || arg in ["--help", "-h", "-?", "/?"]
      || exists d, u :: d in ["--", "-", "/"] && arg == d + u && !("gtest_internal_" <= u)
                        && ("gtest_" <= u || "gtest-" <= u)
  {
    hide HasGoogleTestFlagPrefix;
    PrefixIff(arg);
    if k :| 0 < k <= 2 && k <= |arg| && IsDash(arg[..k]) && IsAboutGTest(arg[k..]) {
      assert arg == arg[..k] + arg[k..];
      assert arg[..k] in ["--", "-", "/"];
    }
    if d, u :| d in ["--", "-", "/"] && arg == d + u && !("gtest_internal_" <= u) && ("gtest_" <= u || "gtest-" <= u) {
      assert IsDash(d) && arg[..|d|] == d && arg[|d|..] == u && IsAboutGTest(u);
    }
  }
}
