/**
 * `trace-options.cc`: the flags `trace` accepts before the command it runs.
 * The arguments after the program name that start with "--" are read in
 * turn; "--simple" and "--rebuild" switch their settings on, and any other
 * such argument is an error. The argument vector is the sequence of
 * arguments, the NULL that ends it being its end.
 */
module TraceOptions {
  import opened Wrappers
  import opened Text

  const SIMPLE_FLAG: string := "--simple"
  const REBUILD_FLAG: string := "--rebuild"

  /** A flag `trace` knows. */
  predicate Known(arg: string) {
    arg == SIMPLE_FLAG || arg == REBUILD_FLAG
  }

  /** The first argument at or after `i` that is missing or does not start with "--". */
  function FlagEnd(argv: seq<string>, i: nat): (j: nat)
    requires i <= |argv|
    ensures i <= j <= |argv|
    ensures forall k :: i <= k < j ==> StartsWith(argv[k], "--")
    ensures j < |argv| ==> !StartsWith(argv[j], "--")
    decreases |argv| - i
  {
    if i < |argv| && StartsWith(argv[i], "--") then FlagEnd(argv, i + 1) else i
  }

  /** The message of the `TraceException` thrown for an unrecognised flag. */
  function UnrecognizedFlag(program: string, arg: string): string {
    program + ": Unrecognized flag (" + arg + " )"
  }

  /**
   * `processCommandLineFlags`: `simple` and `rebuild` are the caller's
   * settings, switched on by the flags read and never off. The flags are the
   * arguments from `argv[1]` up to the first that does not start with "--".
   * When all of them are known, the result is how many there are, repeats
   * included; otherwise the first unknown one throws, after the flags before
   * it have taken effect.
   */
  method ProcessCommandLineFlags(simple0: bool, rebuild0: bool, argv: seq<string>) returns (simple: bool, rebuild: bool, numFlags: Result<nat, string>)
    requires 1 <= |argv|
    ensures var e := FlagEnd(argv, 1);
      numFlags.Success? <==> forall j :: 1 <= j < e ==> Known(argv[j])
    ensures var e := FlagEnd(argv, 1);
      numFlags.Success? ==>
        && numFlags.value == e - 1
        && simple == (simple0 || SIMPLE_FLAG in argv[1..e])
        && rebuild == (rebuild0 || REBUILD_FLAG in argv[1..e])
    ensures numFlags.Failure? ==>
      exists j :: 1 <= j < FlagEnd(argv, 1) && !Known(argv[j]) && (forall k :: 1 <= k < j ==> Known(argv[k]))
        && numFlags.error == UnrecognizedFlag(argv[0], argv[j])
        && simple == (simple0 || SIMPLE_FLAG in argv[1..j])
        && rebuild == (rebuild0 || REBUILD_FLAG in argv[1..j])
  {
    simple, rebuild := simple0, rebuild0;
    var count: nat := 0;
    var i := 1;
    while i < |argv| && StartsWith(argv[i], "--")
      invariant 1 <= i <= FlagEnd(argv, 1)
      invariant FlagEnd(argv, i) == FlagEnd(argv, 1)
      invariant count == i - 1
      invariant forall j :: 1 <= j < i ==> Known(argv[j])
      invariant simple == (simple0 || SIMPLE_FLAG in argv[1..i])
      invariant rebuild == (rebuild0 || REBUILD_FLAG in argv[1..i])
    {
      assert argv[1..i + 1] == argv[1..i] + [argv[i]];
      if argv[i] == SIMPLE_FLAG {
        simple := true;
      } else if argv[i] == REBUILD_FLAG {
        rebuild := true;
      } else {
        return simple, rebuild, Failure(UnrecognizedFlag(argv[0], argv[i]));
      }
      count := count + 1;
      i := i + 1;
    }
    numFlags := Success(count);
  }

  /** The scan stops at the first argument that is not a flag: a later "--rebuild" belongs to the command. */
  lemma ScanStopsAtCommand()
    ensures FlagEnd(["trace", "--simple", "--simple", "ls", "--rebuild"], 1) == 3
  {
    var argv := ["trace", "--simple", "--simple", "ls", "--rebuild"];
    assert StartsWith(argv[1], "--") && StartsWith(argv[2], "--");
    assert !StartsWith(argv[3], "--") by {
      assert argv[3][0] != '-';
    }
  }
}
