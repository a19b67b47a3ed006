/** How gtest.cc takes its flags out of the argument vector, in place, for any notion of a flag: the
    loop over the arguments with its inner loop that shifts the rest to the left.  Flags says which
    arguments are flags; the argument list is a value here only in the specification, where the
    flags taken and the arguments kept are two parts of it. */
module CommandLine {
  import opened Basics

  /** The arguments that are flags, or are not, in their order. */
  function Those(args: seq<string>, isFlag: string -> bool, flags: bool): (r: seq<string>)
    ensures |r| <= |args|
  {
    if args == [] then []
    else
      var rest, last := args[..|args| - 1], args[|args| - 1];
      Those(rest, isFlag, flags) + if isFlag(last) == flags then [last] else []
  }

  /** The arguments after the program name. */
  function After(args: seq<string>): seq<string> {
    if args == [] then [] else args[1..]
  }

  /** The program name and the arguments that are not flags. */
  function Left(args: seq<string>, isFlag: string -> bool): seq<string> {
    if args == [] then [] else [args[0]] + Those(args[1..], isFlag, false)
  }

  /** Some argument that is not a flag asks for help. */
  predicate Helped(args: seq<string>, isFlag: string -> bool, isHelp: string -> bool) {
    args != [] &&
    (Helped(args[..|args| - 1], isFlag, isHelp) || (!isFlag(args[|args| - 1]) && isHelp(args[|args| - 1])))
  }

  lemma {:induction false} HelpedMeans(args: seq<string>, isFlag: string -> bool, isHelp: string -> bool)
    ensures Helped(args, isFlag, isHelp) <==> exists k :: 0 <= k < |args| && !isFlag(args[k]) && isHelp(args[k])
  {
    if args != [] {
      HelpedMeans(args[..|args| - 1], isFlag, isHelp);
      assert forall k :: 0 <= k < |args| - 1 ==> args[..|args| - 1][k] == args[k];
    }
  }

  /** What the flags are set to when these arguments have been stored one after the other. */
  function Stored<F>(store: (F, string) -> F, flags: F, taken: seq<string>): F {
    if taken == [] then flags
    else store(Stored(store, flags, taken[..|taken| - 1]), taken[|taken| - 1])
  }

  lemma StoredAppend<F>(store: (F, string) -> F, flags: F, taken: seq<string>, arg: string)
    ensures Stored(store, flags, taken + [arg]) == store(Stored(store, flags, taken), arg)
  {
    assert (taken + [arg])[..|taken|] == taken;
  }

  /** The vector holds these arguments from some place on. */
  ghost predicate HoldsArgs(argv: array<Option<string>>, at: nat, args: seq<string>)
    reads argv
  {
    at + |args| <= argv.Length && forall k :: 0 <= k < |args| ==> argv[at + k] == Some(args[k])
  }

  /** Moves what follows i, the null pointer at n included, one place to the left. */
  method ShiftLeft(argv: array<Option<string>>, i: nat, n: nat)
    requires i <= n < argv.Length
    modifies argv
    ensures forall k :: i <= k < n ==> argv[k] == old(argv[k + 1])
    ensures forall k :: 0 <= k < argv.Length && !(i <= k < n) ==> argv[k] == old(argv[k])
  {
    var j := i;
    while j != n
      invariant i <= j <= n
      invariant forall k :: i <= k < j ==> argv[k] == old(argv[k + 1])
      invariant forall k :: 0 <= k < argv.Length && !(i <= k < j) ==> argv[k] == old(argv[k])
      decreases n - j
    {
      argv[j] := argv[j + 1];
      j := j + 1;
    }
  }

  /** What is known when p of the arguments after the program name have been looked at. */
  ghost predicate Progress(argv: array<Option<string>>, args: seq<string>, isFlag: string -> bool,
                           p: nat, i: nat, count: nat)
    reads argv
  {
    var rest := After(args);
    && p <= |rest| && i == 1 + |Those(rest[..p], isFlag, false)|
    && count == (if args == [] then 0 else i + |rest| - p) && count < argv.Length
    && (args != [] ==> argv[0] == Some(args[0]))
    && HoldsArgs(argv, 1, Those(rest[..p], isFlag, false))
    && HoldsArgs(argv, i, rest[p..])
    && argv[count] == None
  }

  /** Takes out the arguments that are flags and stores their values; `args` is what the vector
      holds.  Flags says which arguments are flags, which ask for help and how a value is stored. */
  method ParseGoogleTestFlagsOnlyImpl<F>(
      argc: nat, argv: array<Option<string>>, isFlag: string -> bool, isHelp: string -> bool,
      store: (F, string) -> F, init: F, ghost args: seq<string>)
    returns (count: nat, flags: F, helpFlag: bool)
    requires |args| == argc < argv.Length && HoldsArgs(argv, 0, args) && argv[argc] == None
    modifies argv
    ensures count == |Left(args, isFlag)| && HoldsArgs(argv, 0, Left(args, isFlag)) && argv[count] == None
    ensures forall k :: argc < k < argv.Length ==> argv[k] == old(argv[k])
    ensures flags == Stored(store, init, Those(After(args), isFlag, true))
    ensures helpFlag <==> Helped(After(args), isFlag, isHelp)
  {
    hide Progress, Those, Stored, Left, Helped;
    count, flags, helpFlag := argc, init, false;
    var i := 1;
    ghost var rest, p := After(args), 0;
    Start(argv, args, isFlag);
    NothingYet(store, init, rest, isFlag, isHelp);
    while i < count
      invariant Progress(argv, args, isFlag, p, i, count) && count <= argc
      invariant forall k :: argc < k < argv.Length ==> argv[k] == old(argv[k])
      invariant p <= |rest|
      invariant flags == Stored(store, init, Those(rest[..p], isFlag, true))
      invariant helpFlag <==> Helped(rest[..p], isFlag, isHelp)
      decreases |rest| - p
    {
      LooksAt(argv, args, isFlag, p, i, count);
      HelpedNext(rest, isFlag, isHelp, p);
      Next(rest, isFlag, p);
      var arg := argv[i].value;
      if isFlag(arg) {
        TakeOut(argv, args, isFlag, p, i, count);
        count := count - 1;
        StoredAppend(store, init, Those(rest[..p], isFlag, true), arg);
        flags := store(flags, arg);
      } else {
        Keep(argv, args, isFlag, p, i, count);
        if isHelp(arg) {
          helpFlag := true;
        }
        i := i + 1;
      }
      p := p + 1;
    }
    End(argv, args, isFlag, p, i, count);
  }

  lemma Start(argv: array<Option<string>>, args: seq<string>, isFlag: string -> bool)
    requires |args| < argv.Length && HoldsArgs(argv, 0, args) && argv[|args|] == None
    ensures Progress(argv, args, isFlag, 0, 1, |args|)
  {
    assert After(args)[..0] == [];
  }

  lemma NothingYet<F>(store: (F, string) -> F, init: F, rest: seq<string>, isFlag: string -> bool,
                      isHelp: string -> bool)
    ensures Stored(store, init, Those(rest[..0], isFlag, true)) == init
    ensures !Helped(rest[..0], isFlag, isHelp)
  {
  }

  lemma LooksAt(argv: array<Option<string>>, args: seq<string>, isFlag: string -> bool, p: nat, i: nat, count: nat)
    requires Progress(argv, args, isFlag, p, i, count) && i < count
    ensures p < |After(args)| && i < argv.Length && argv[i] == Some(After(args)[p])
  {
    assert After(args)[p..][0] == After(args)[p];
  }

  lemma End(argv: array<Option<string>>, args: seq<string>, isFlag: string -> bool, p: nat, i: nat, count: nat)
    requires Progress(argv, args, isFlag, p, i, count) && i >= count
    ensures After(args)[..p] == After(args)
    ensures count == |Left(args, isFlag)| && HoldsArgs(argv, 0, Left(args, isFlag)) && argv[count] == None
  {
    assert After(args)[..|After(args)|] == After(args);
  }

  lemma HelpedNext(rest: seq<string>, isFlag: string -> bool, isHelp: string -> bool, p: nat)
    requires p < |rest|
    ensures Helped(rest[..p + 1], isFlag, isHelp) <==>
      Helped(rest[..p], isFlag, isHelp) || (!isFlag(rest[p]) && isHelp(rest[p]))
  {
    assert rest[..p + 1][..p] == rest[..p];
  }

  /** Goes on when the argument at i is a flag. */
  method TakeOut(argv: array<Option<string>>, ghost args: seq<string>, isFlag: string -> bool,
                 ghost p: nat, i: nat, count: nat)
    requires Progress(argv, args, isFlag, p, i, count) && i < count && isFlag(After(args)[p])
    modifies argv
    ensures Progress(argv, args, isFlag, p + 1, i, count - 1)
    ensures forall k :: count < k < argv.Length ==> argv[k] == old(argv[k])
  {
    hide Those;
    Next(After(args), isFlag, p);
    assert After(args)[p..] == [After(args)[p]] + After(args)[p + 1..];
    ShiftLeft(argv, i, count);
  }

  lemma Keep(argv: array<Option<string>>, args: seq<string>, isFlag: string -> bool, p: nat, i: nat, count: nat)
    requires Progress(argv, args, isFlag, p, i, count) && i < count && !isFlag(After(args)[p])
    ensures Progress(argv, args, isFlag, p + 1, i + 1, count)
  {
    hide Those, HoldsArgs;
    var rest := After(args);
    Next(rest, isFlag, p);
    assert rest[p..][0] == rest[p] && rest[p..][1..] == rest[p + 1..];
    HoldsRest(argv, i, rest[p..]);
    HoldsMore(argv, 1, Those(rest[..p], isFlag, false), rest[p]);
  }

  lemma HoldsMore(argv: array<Option<string>>, at: nat, args: seq<string>, arg: string)
    requires HoldsArgs(argv, at, args) && at + |args| < argv.Length && argv[at + |args|] == Some(arg)
    ensures HoldsArgs(argv, at, args + [arg])
  {
  }

  lemma HoldsRest(argv: array<Option<string>>, at: nat, args: seq<string>)
    requires HoldsArgs(argv, at, args) && args != []
    ensures at < argv.Length && argv[at] == Some(args[0]) && HoldsArgs(argv, at + 1, args[1..])
  {
    assert argv[at + 0] == Some(args[0]);
    forall k | 0 <= k < |args[1..]|
      ensures argv[at + 1 + k] == Some(args[1..][k])
    {
      assert argv[at + (k + 1)] == Some(args[k + 1]);
    }
  }

  lemma Next(rest: seq<string>, isFlag: string -> bool, p: nat)
    requires p < |rest|
    ensures var kept := Those(rest[..p], isFlag, false);
      Those(rest[..p + 1], isFlag, false) == if isFlag(rest[p]) then kept else kept + [rest[p]]
    ensures var taken := Those(rest[..p], isFlag, true);
      Those(rest[..p + 1], isFlag, true) == if isFlag(rest[p]) then taken + [rest[p]] else taken
  {
    assert rest[..p + 1][..p] == rest[..p];
  }

  /** The arguments left and the flags taken are all the arguments, each as often as it was there. */
  lemma {:induction false} NothingLost(args: seq<string>, isFlag: string -> bool)
    ensures multiset(Those(args, isFlag, true)) + multiset(Those(args, isFlag, false)) == multiset(args)
  {
    if args != [] {
      NothingLost(args[..|args| - 1], isFlag);
      assert args == args[..|args| - 1] + [args[|args| - 1]];
    }
  }

  lemma ThoseAppend(args: seq<string>, a: string, isFlag: string -> bool, flags: bool)
    ensures Those(args + [a], isFlag, flags) == Those(args, isFlag, flags) + if isFlag(a) == flags then [a] else []
  {
    assert (args + [a])[..|args|] == args;
  }

  lemma {:induction false} ThoseAgain(args: seq<string>, isFlag: string -> bool, flags: bool)
    ensures Those(Those(args, isFlag, flags), isFlag, flags) == Those(args, isFlag, flags)
    ensures Those(Those(args, isFlag, flags), isFlag, !flags) == []
  {
    if args != [] {
      var before, last := args[..|args| - 1], args[|args| - 1];
      ThoseAgain(before, isFlag, flags);
      if isFlag(last) == flags {
        ThoseAppend(Those(before, isFlag, flags), last, isFlag, flags);
        ThoseAppend(Those(before, isFlag, flags), last, isFlag, !flags);
      } else {
        assert Those(args, isFlag, flags) == Those(before, isFlag, flags);
      }
    }
  }

  /** Looking for flags again finds none and leaves the arguments as they are. */
  lemma NoFlagsLeft(args: seq<string>, isFlag: string -> bool)
    ensures Left(Left(args, isFlag), isFlag) == Left(args, isFlag)
    ensures Those(After(Left(args, isFlag)), isFlag, true) == []
  {
    if args != [] {
      ThoseAgain(args[1..], isFlag, false);
      assert Left(args, isFlag)[1..] == Those(args[1..], isFlag, false);
    }
  }
}
