/**
 * The command-line decisions of the entry point: whether help is asked for,
 * and which hive file, if any, the tool reads instead of the local registry.
 */
module Program {
  import opened Wrappers

  /** The four spellings of the help request. */
  predicate IsHelpArg(a: string)
  {
    a == "--help" || a == "-h" || a == "/?" || a == "help"
  }

  /** The two spellings of the hive option. */
  predicate IsHiveFlag(a: string)
  {
    a == "--hive" || a == "-hive"
  }

  /** Help is shown when the first argument asks for it. */
  predicate WantsHelp(args: seq<string>)
  {
    |args| > 0 && IsHelpArg(args[0])
  }

  /** The hive path the arguments name: the argument after the first hive option that has one after it. */
  function HivePath(args: seq<string>): Option<string>
  {
    if |args| < 2 then None
    else if IsHiveFlag(args[0]) then Some(args[1])
    else HivePath(args[1..])
  }

  /** i is the first position holding a hive option with an argument after it. */
  predicate FirstHiveAt(args: seq<string>, i: int)
  {
    0 <= i < |args| - 1 && IsHiveFlag(args[i]) && forall j :: 0 <= j < i ==> !IsHiveFlag(args[j])
  }

  /** HivePath is null exactly when no option before the last argument is a hive option, and otherwise the argument after the first one. */
  lemma {:induction false} HivePathMeaning(args: seq<string>)
    ensures HivePath(args).None? <==> forall i :: 0 <= i < |args| - 1 ==> !IsHiveFlag(args[i])
    ensures HivePath(args).Some? ==> exists i :: FirstHiveAt(args, i) && HivePath(args).value == args[i + 1]
  {
    if |args| >= 2 && !IsHiveFlag(args[0]) {
      var rest := args[1..];
      HivePathMeaning(rest);
      assert forall i :: 0 <= i < |rest| - 1 ==> rest[i] == args[i + 1];
      if HivePath(rest).Some? {
        var i :| FirstHiveAt(rest, i) && HivePath(rest).value == rest[i + 1];
        assert FirstHiveAt(args, i + 1);
      } else {
        forall i | 0 <= i < |args| - 1
          ensures !IsHiveFlag(args[i])
        {
          if i > 0 {
            assert args[i] == rest[i - 1];
          }
        }
      }
    } else if |args| >= 2 {
      assert FirstHiveAt(args, 0);
    }
  }

  /** A hive option in the last position has nothing after it and is skipped, not an error. */
  lemma TrailingHiveFlagSkipped(args: seq<string>, flag: string)
    requires IsHiveFlag(flag)
    requires forall i :: 0 <= i < |args| ==> !IsHiveFlag(args[i])
    ensures HivePath(args + [flag]).None?
  {
    var all := args + [flag];
    HivePathMeaning(all);
    assert forall i :: 0 <= i < |all| - 1 ==> all[i] == args[i];
  }

  /** ParseHivePath: scans the arguments left to right and returns the one after the first hive option that has one. */
  method ParseHivePath(args: seq<string>) returns (r: Option<string>)
    ensures r == HivePath(args)
  {
    var i := 0;
    while i < |args|
      invariant 0 <= i <= |args|
      invariant HivePath(args[i..]) == HivePath(args)
    {
      assert args[i..][1..] == args[i + 1..];
      if IsHiveFlag(args[i]) && i + 1 < |args| {
        return Some(args[i + 1]);
      }
      i := i + 1;
    }
    return None;
  }

  /** What Run goes on to do. Help makes it return exit code 0; the two reading paths are not part of this model. */
  datatype Dispatch = ShowHelp | ReadExternalHive(hivePath: string) | ReadLocal

  const HelpExitCode: int := 0

  /** The exit code Run returns for a dispatch, when the model determines it. */
  function ExitCodeOf(d: Dispatch): (c: Option<int>)
    ensures c.Some? <==> d.ShowHelp?
    ensures c.Some? ==> c.value == HelpExitCode
  {
    if d.ShowHelp? then Some(HelpExitCode) else None
  }

  /** Run's choice: the help test comes first, then the hive option, else the local registry. */
  method Run(args: seq<string>) returns (d: Dispatch)
    ensures d.ShowHelp? <==> WantsHelp(args)
    ensures !WantsHelp(args) ==> d == if HivePath(args).Some? then ReadExternalHive(HivePath(args).value) else ReadLocal
  {
    if |args| > 0 && IsHelpArg(args[0]) {
      return ShowHelp;
    }
    var hivePath := ParseHivePath(args);
    if hivePath.Some? {
      return ReadExternalHive(hivePath.value);
    }
    return ReadLocal;
  }
}
