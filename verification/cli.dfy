/**
 * The command-line parser of the solution runner: a left-to-right scan of
 * the argument vector (index 0 is the program name) that either settles on
 * a day filter and an "all implementations" flag, asks for the help text
 * (exit status 0) or stops with an error (exit status 1).
 */
module Cli {
  import opened Common

  /** Why parsing stops with exit status 1. */
  datatype CliError =
    | MissingDay                  // `--day` is the last argument
    | DayOutOfRange(day: nat)     // a number outside 1..25
    | InvalidDay(arg: string)     // a value that is not a `usize`
    | UnknownArgument(arg: string)

  /** Run with a day filter and the all-implementations flag, print the help text, or fail. */
  datatype Outcome = Run(day: Option<nat>, allImpls: bool) | Help | Failure(error: CliError)

  predicate IsHelp(arg: string) {
    arg == "--help" || arg == "-h"
  }

  predicate IsDay(arg: string) {
    arg == "--day" || arg == "-d"
  }

  predicate IsAllImpls(arg: string) {
    arg == "--all-impls" || arg == "-a"
  }

  predicate InRange(n: nat) {
    1 <= n <= 25
  }

  /**
   * The outcome of scanning from index `i` with the day filter and flag
   * gathered so far: each option is handled in turn, `--day` consuming the
   * value after it.
   */
  function Scan(args: seq<string>, i: nat, day: Option<nat>, allImpls: bool): Outcome
    decreases |args| - i
  {
    if i >= |args| then Run(day, allImpls)
    else if IsHelp(args[i]) then Help
    else if IsDay(args[i]) then
      if i + 1 >= |args| then Failure(MissingDay)
      else match ParseU64(args[i + 1])
        case Some(n) => if InRange(n) then Scan(args, i + 2, Some(n), allImpls) else Failure(DayOutOfRange(n))
        case None => Failure(InvalidDay(args[i + 1]))
    else if IsAllImpls(args[i]) then Scan(args, i + 1, day, true)
    else Failure(UnknownArgument(args[i]))
  }

  /** The parse of a whole argument vector, skipping the program name. */
  function Parse(args: seq<string>): Outcome {
    Scan(args, 1, None, false)
  }

  /**
   * The loop of the runner's parser, against `Parse`: it runs exactly on
   * well-formed arguments, and then the flag says whether `--all-impls` was
   * given and the filter holds the value of the last `--day`, if any.
   */
  method ParseArgs(args: seq<string>) returns (outcome: Outcome)
    ensures outcome == Parse(args)
    ensures outcome.Run? <==> WellFormed(args, 1)
    ensures outcome.Run? ==> (outcome.allImpls <==> exists k :: 1 <= k < |args| && IsAllImpls(args[k]))
    ensures outcome.Run? && (forall k :: 1 <= k < |args| ==> !IsDay(args[k])) ==> outcome.day == None
    ensures outcome.Run? ==> forall k :: LastDayAt(args, 1, k) ==> k + 1 < |args| && outcome.day == ParseU64(args[k + 1])
  {
    var day: Option<nat> := None;
    var allImpls := false;
    var i := 1;
    while i < |args|
      invariant Scan(args, i, day, allImpls) == Parse(args)
      decreases |args| - i
    {
      if IsHelp(args[i]) {
        outcome := Help;
        WellFormedIff(args, 1, None, false);
        return;
      } else if IsDay(args[i]) {
        if i + 1 >= |args| {
          outcome := Failure(MissingDay);
          WellFormedIff(args, 1, None, false);
          return;
        }
        match ParseU64(args[i + 1]) {
          case Some(n) =>
            if InRange(n) {
              day := Some(n);
              i := i + 2;
            } else {
              outcome := Failure(DayOutOfRange(n));
              WellFormedIff(args, 1, None, false);
              return;
            }
          case None =>
            outcome := Failure(InvalidDay(args[i + 1]));
            WellFormedIff(args, 1, None, false);
            return;
        }
      } else if IsAllImpls(args[i]) {
        allImpls := true;
        i := i + 1;
      } else {
        outcome := Failure(UnknownArgument(args[i]));
        WellFormedIff(args, 1, None, false);
        return;
      }
    }
    outcome := Run(day, allImpls);
    WellFormedIff(args, 1, None, false);
    RunAllImpls(args, 1, None, false);
    RunDay(args, 1, None, false);
  }

  // ---------------------------------------------------------------------
  // What a run means, stated without the scan
  // ---------------------------------------------------------------------

  /**
   * From index `i` on there is no help option, every `--day` has a value in
   * 1..25 after it, and every other argument is an option or such a value.
   */
  ghost predicate WellFormed(args: seq<string>, i: nat) {
    && (forall k :: i <= k < |args| ==> !IsHelp(args[k]))
    && (forall k :: i <= k < |args| && IsDay(args[k]) ==> GoodValueAfter(args, k))
    && (forall k :: i <= k < |args| ==> Recognised(args, i, k))
  }

  /** A number in 1..25 follows index `k`. */
  predicate GoodValueAfter(args: seq<string>, k: nat) {
    k + 1 < |args| && ParseU64(args[k + 1]).Some? && InRange(ParseU64(args[k + 1]).value)
  }

  /** The argument at `k` is an option, or the value of a `--day` scanned from `i` on. */
  predicate Recognised(args: seq<string>, i: nat, k: nat)
    requires k < |args|
  {
    IsDay(args[k]) || IsAllImpls(args[k]) || (i < k && IsDay(args[k - 1]))
  }

  /** A number is never mistaken for an option. */
  lemma ValueIsNoOption(arg: string)
    requires ParseU64(arg).Some?
    ensures !IsHelp(arg) && !IsDay(arg) && !IsAllImpls(arg)
  {
  }

  /** The three options are told apart. */
  lemma OptionsDistinct(arg: string)
    ensures IsAllImpls(arg) ==> !IsDay(arg) && !IsHelp(arg)
    ensures IsDay(arg) ==> !IsHelp(arg)
  {
    assert "-a"[1] != "-d"[1] && "-a"[1] != "-h"[1] && "-d"[1] != "-h"[1];
    assert |"--all-impls"| != |"--day"| && |"--all-impls"| != |"--help"| && |"--day"| != |"--help"|;
  }

  /** The scan runs to the end exactly when the arguments are well formed. */
  lemma {:induction false} WellFormedIff(args: seq<string>, i: nat, day: Option<nat>, allImpls: bool)
    ensures Scan(args, i, day, allImpls).Run? <==> WellFormed(args, i)
    decreases |args| - i
  {
    if i < |args| {
      var arg := args[i];
      if IsDay(arg) && GoodValueAfter(args, i) {
        WellFormedIff(args, i + 2, ParseU64(args[i + 1]), allImpls);
        WellFormedAfterDay(args, i);
      } else if IsAllImpls(arg) {
        WellFormedIff(args, i + 1, day, true);
        WellFormedAfterAllImpls(args, i);
      } else {
        WellFormedStops(args, i);
      }
    }
  }

  /** A `--day` with its value in range keeps well-formedness from two places on. */
  lemma WellFormedAfterDay(args: seq<string>, i: nat)
    requires i < |args| && IsDay(args[i]) && GoodValueAfter(args, i)
    ensures WellFormed(args, i) <==> WellFormed(args, i + 2)
  {
    OptionsDistinct(args[i]);
    ValueIsNoOption(args[i + 1]);
    WellFormedFrom(args, i, i + 2);
  }

  /** An `--all-impls` keeps well-formedness from the next place on. */
  lemma WellFormedAfterAllImpls(args: seq<string>, i: nat)
    requires i < |args| && IsAllImpls(args[i])
    ensures WellFormed(args, i) <==> WellFormed(args, i + 1)
  {
    OptionsDistinct(args[i]);
    WellFormedFrom(args, i, i + 1);
  }

  /**
   * Skipping from `i` to `j` over arguments that are no help, whose `--day`s
   * have good values, that are recognised, and none of which is a `--day` just
   * before `j`, keeps well-formedness.
   */
  lemma WellFormedFrom(args: seq<string>, i: nat, j: nat)
    requires i < j <= |args| && j <= i + 2
    requires forall k :: i <= k < j ==> !IsHelp(args[k]) && (IsDay(args[k]) ==> GoodValueAfter(args, k))
    requires forall k :: i <= k < j ==> Recognised(args, i, k)
    requires j < |args| ==> !IsDay(args[j - 1])
    ensures WellFormed(args, i) <==> WellFormed(args, j)
  {
    forall k | j <= k < |args|
      ensures Recognised(args, i, k) <==> Recognised(args, j, k)
    {
    }
  }

  /** Help, a `--day` without a good value, or an unknown argument breaks well-formedness. */
  lemma WellFormedStops(args: seq<string>, i: nat)
    requires i < |args| && !IsAllImpls(args[i]) && !(IsDay(args[i]) && GoodValueAfter(args, i))
    ensures !WellFormed(args, i)
  {
    if !IsHelp(args[i]) && !IsDay(args[i]) {
      assert !Recognised(args, i, i);
    }
  }

  /** After a run the flag is set exactly when some argument asks for every implementation. */
  lemma {:induction false} RunAllImpls(args: seq<string>, i: nat, day: Option<nat>, allImpls: bool)
    requires Scan(args, i, day, allImpls).Run?
    ensures Scan(args, i, day, allImpls).allImpls <==> allImpls || exists k :: i <= k < |args| && IsAllImpls(args[k])
    decreases |args| - i
  {
    if i < |args| {
      if IsDay(args[i]) {
        var n := ParseU64(args[i + 1]).value;
        RunAllImpls(args, i + 2, Some(n), allImpls);
        ValueIsNoOption(args[i + 1]);
        if exists k :: i <= k < |args| && IsAllImpls(args[k]) {
          var k :| i <= k < |args| && IsAllImpls(args[k]);
          assert k != i && k != i + 1;
        }
      } else {
        RunAllImpls(args, i + 1, day, true);
      }
    }
  }

  /** `k` holds the last `--day` from index `i` on. */
  ghost predicate LastDayAt(args: seq<string>, i: nat, k: int) {
    i <= k < |args| && IsDay(args[k]) && forall j :: k < j < |args| ==> !IsDay(args[j])
  }

  /**
   * After a run the day filter is the value after the last `--day`, or the
   * filter held before when there is none.
   */
  lemma {:induction false} RunDay(args: seq<string>, i: nat, day: Option<nat>, allImpls: bool)
    requires Scan(args, i, day, allImpls).Run?
    ensures (forall k :: i <= k < |args| ==> !IsDay(args[k])) ==> Scan(args, i, day, allImpls).day == day
    ensures forall k :: LastDayAt(args, i, k) ==>
      k + 1 < |args| && Scan(args, i, day, allImpls).day == ParseU64(args[k + 1])
    decreases |args| - i
  {
    if i < |args| {
      if IsDay(args[i]) {
        var n := ParseU64(args[i + 1]).value;
        RunDay(args, i + 2, Some(n), allImpls);
        ValueIsNoOption(args[i + 1]);
        forall k | LastDayAt(args, i, k)
          ensures k + 1 < |args| && Scan(args, i, day, allImpls).day == ParseU64(args[k + 1])
        {
          if k == i {
            assert forall j :: i + 2 <= j < |args| ==> !IsDay(args[j]);
          } else {
            assert k != i + 1;
            assert LastDayAt(args, i + 2, k);
          }
        }
      } else {
        RunDay(args, i + 1, day, true);
        assert forall k :: LastDayAt(args, i, k) ==> k != i && LastDayAt(args, i + 1, k);
      }
    }
  }

  // ---------------------------------------------------------------------
  // How the scan stops
  // ---------------------------------------------------------------------

  /** Help is asked for by some argument. */
  lemma {:induction false} HelpNamed(args: seq<string>, i: nat, day: Option<nat>, allImpls: bool)
    requires Scan(args, i, day, allImpls) == Help
    ensures exists k :: i <= k < |args| && IsHelp(args[k])
    decreases |args| - i
  {
    if !IsHelp(args[i]) {
      if IsDay(args[i]) {
        HelpNamed(args, i + 2, ParseU64(args[i + 1]), allImpls);
      } else {
        HelpNamed(args, i + 1, day, true);
      }
    }
  }

  /** Each error names what went wrong: the argument, the value or the day it points at. */
  lemma {:induction false} FailureNamed(args: seq<string>, i: nat, day: Option<nat>, allImpls: bool)
    requires Scan(args, i, day, allImpls).Failure?
    ensures match Scan(args, i, day, allImpls).error
      case MissingDay => |args| >= 1 && IsDay(args[|args| - 1])
      case DayOutOfRange(n) => exists k :: i <= k && k + 1 < |args| && IsDay(args[k]) && ParseU64(args[k + 1]) == Some(n) && !InRange(n)
      case InvalidDay(s) => exists k :: i <= k && k + 1 < |args| && IsDay(args[k]) && args[k + 1] == s && ParseU64(s) == None
      case UnknownArgument(s) => exists k :: i <= k < |args| && args[k] == s && !IsHelp(s) && !IsDay(s) && !IsAllImpls(s)
    decreases |args| - i
  {
    if IsDay(args[i]) {
      if i + 1 < |args| && ParseU64(args[i + 1]).Some? && InRange(ParseU64(args[i + 1]).value) {
        FailureNamed(args, i + 2, ParseU64(args[i + 1]), allImpls);
      }
    } else if IsAllImpls(args[i]) {
      FailureNamed(args, i + 1, day, true);
    }
  }

  /**
   * Help and every error but a missing day are decided before the end:
   * arguments after them change nothing.
   */
  lemma {:induction false} StopsEarly(args: seq<string>, more: seq<string>, i: nat, day: Option<nat>, allImpls: bool)
    requires var o := Scan(args, i, day, allImpls); o.Help? || (o.Failure? && o.error != MissingDay)
    ensures Scan(args + more, i, day, allImpls) == Scan(args, i, day, allImpls)
    decreases |args| - i
  {
    var all := args + more;
    assert all[i] == args[i];
    if IsDay(args[i]) {
      assert all[i + 1] == args[i + 1];
      if ParseU64(args[i + 1]).Some? && InRange(ParseU64(args[i + 1]).value) {
        StopsEarly(args, more, i + 2, ParseU64(args[i + 1]), allImpls);
      }
    } else if IsAllImpls(args[i]) {
      StopsEarly(args, more, i + 1, day, true);
    }
  }

  /** A run consumes its arguments exactly, so later arguments continue from its state. */
  lemma {:induction false} RunContinues(args: seq<string>, more: seq<string>, i: nat, day: Option<nat>, allImpls: bool)
    requires i <= |args| && Scan(args, i, day, allImpls).Run?
    ensures var o := Scan(args, i, day, allImpls);
      Scan(args + more, i, day, allImpls) == Scan(args + more, |args|, o.day, o.allImpls)
    decreases |args| - i
  {
    if i < |args| {
      var all := args + more;
      assert all[i] == args[i];
      if IsDay(args[i]) {
        assert all[i + 1] == args[i + 1];
        RunContinues(args, more, i + 2, ParseU64(args[i + 1]), allImpls);
      } else {
        RunContinues(args, more, i + 1, day, true);
      }
    }
  }

  /** A `--day` appended to a run overrides the filter it had. */
  lemma LaterDayWins(args: seq<string>, n: nat)
    requires |args| >= 1 && Parse(args).Run? && InRange(n)
    ensures Parse(args + ["--day", ToDecimal(n)]) == Run(Some(n), Parse(args).allImpls)
  {
    var tail := ["--day", ToDecimal(n)];
    RunContinues(args, tail, 1, None, false);
    ParseU64RoundTrip(n);
    var all := args + tail;
    assert all[|args|] == "--day" && all[|args| + 1] == ToDecimal(n);
  }

  /** `--all-impls` and `--day N` may come in either order. */
  lemma OrderIrrelevant(args: seq<string>, value: string, more: seq<string>)
    requires |args| >= 1 && Parse(args).Run?
    ensures Parse(args + ["-a", "-d", value] + more) == Parse(args + ["-d", value, "-a"] + more)
  {
    var o := Parse(args);
    var one, two := args + ["-a", "-d", value] + more, args + ["-d", value, "-a"] + more;
    assert one == args + (["-a", "-d", value] + more);
    assert two == args + (["-d", value, "-a"] + more);
    RunContinues(args, ["-a", "-d", value] + more, 1, None, false);
    RunContinues(args, ["-d", value, "-a"] + more, 1, None, false);
    var m := |args|;
    assert one[m] == "-a" && one[m + 1] == "-d" && one[m + 2] == value;
    assert two[m] == "-d" && two[m + 1] == value && two[m + 2] == "-a";
    match ParseU64(value) {
      case Some(n) =>
        if InRange(n) {
          assert Scan(one, m, o.day, o.allImpls) == Scan(one, m + 3, Some(n), true);
          assert Scan(two, m, o.day, o.allImpls) == Scan(two, m + 3, Some(n), true);
          assert one[m + 3..] == two[m + 3..] == more;
          ScanSuffix(one, two, m + 3, Some(n), true);
        }
      case None =>
    }
  }

  /** The scan from `i` only reads the arguments from `i` on. */
  lemma {:induction false} ScanSuffix(a: seq<string>, b: seq<string>, i: nat, day: Option<nat>, allImpls: bool)
    requires i <= |a| && i <= |b| && a[i..] == b[i..]
    ensures Scan(a, i, day, allImpls) == Scan(b, i, day, allImpls)
    decreases |a| - i
  {
    if i < |a| {
      assert a[i] == a[i..][0] == b[i..][0] == b[i];
      if i + 1 < |a| {
        assert a[i + 1] == a[i..][1] == b[i..][1] == b[i + 1];
      }
      if i + 2 <= |a| {
        assert a[i + 2..] == a[i..][2..];
        assert b[i + 2..] == b[i..][2..];
        ScanSuffix(a, b, i + 2, ParseU64(a[i + 1]), allImpls);
      }
      assert a[i + 1..] == a[i..][1..];
      assert b[i + 1..] == b[i..][1..];
      ScanSuffix(a, b, i + 1, day, true);
    }
  }

  // ---------------------------------------------------------------------
  // The argument vectors of the tests
  // ---------------------------------------------------------------------

  lemma NoArguments()
    ensures Parse(["aoc2025"]) == Run(None, false)
    ensures Parse([]) == Run(None, false)
  {
  }

  lemma DayArgument()
    ensures Parse(["aoc2025", "--day", "5"]) == Run(Some(5), false)
    ensures Parse(["aoc2025", "-d", "1"]) == Run(Some(1), false)
  {
    ParseU64RoundTrip(5);
    ParseU64RoundTrip(1);
    assert ToDecimal(5) == "5" && ToDecimal(1) == "1";
  }

  lemma AllImplsArgument()
    ensures Parse(["aoc2025", "--all-impls"]) == Run(None, true)
    ensures Parse(["aoc2025", "-a"]) == Run(None, true)
  {
  }

  lemma DayAndAllImpls()
    ensures Parse(["aoc2025", "--day", "2", "--all-impls"]) == Run(Some(2), true)
  {
    ParseU64RoundTrip(2);
    assert ToDecimal(2) == "2";
  }
}
