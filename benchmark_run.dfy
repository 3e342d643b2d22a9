/**
 * The benchmark-run script: the command string of a validated run record, and
 * the bookkeeping that extends the record with what the child process did.
 * Starting the process, waiting on it, the clock and the host name are not
 * modelled: what the child did arrives as an `Outcome`, and the clock and host
 * readings arrive as parameters.
 */
module BenchmarkRunScript {
  import opened Wrappers
  import opened Text
  import opened Parameter
  import opened Benchmark

  /** A run record as `run_benchmark` receives it and extends it in place. */
  class RunRecord {
    var path: string
    var clArgs: seq<Scalar>
    var envArgs: seq<Arg>
    var returnCode: Option<int>
    var timestamp: Option<string>
    var host: Option<string>
    var elapsed: Option<real>
    var stdout: Option<string>
    var stderr: Option<string>

    /** A record that has not been run: it holds no output fields. */
    constructor(path: string, clArgs: seq<Scalar>, envArgs: seq<Arg>)
      ensures this.path == path && this.clArgs == clArgs && this.envArgs == envArgs
      ensures returnCode.None? && timestamp.None? && host.None?
      ensures elapsed.None? && stdout.None? && stderr.None?
    {
      this.path := path;
      this.clArgs := clArgs;
      this.envArgs := envArgs;
      returnCode := None;
      timestamp := None;
      host := None;
      elapsed := None;
      stdout := None;
      stderr := None;
    }
  }

  /** What the child process did: it exited with a code, or it was killed after
      the timeout; its decoded output is collected either way. */
  datatype Outcome = Exited(code: int, out: string, err: string) | TimedOut(out: string, err: string)

  function RawTokens(args: seq<Scalar>, floatRepr: real -> string): (ts: seq<string>)
    ensures |ts| == |args|
    ensures forall k :: 0 <= k < |args| ==> ts[k] == Show(args[k], floatRepr)
  {
    seq(|args|, k requires 0 <= k < |args| => Show(args[k], floatRepr))
  }

  /** This script's `string_of_cl_args`: the arguments are raw values, each
      printed with `str` and joined by single spaces. */
  method StringOfClArgs(args: seq<Scalar>, floatRepr: real -> string) returns (out: string)
    ensures out == JoinSpace(RawTokens(args, floatRepr))
  {
    out := "";
    var i := 0;
    for k := 0 to |args|
      invariant i == k
      invariant out == JoinSpace(RawTokens(args[..k], floatRepr))
    {
      var sa := Show(args[k], floatRepr);
      assert RawTokens(args[..k + 1], floatRepr) == RawTokens(args[..k], floatRepr) + [sa];
      JoinSpaceSnoc(RawTokens(args[..k], floatRepr), sa);
      out := if i > 0 then out + " " + sa else sa;
      i := i + 1;
    }
    assert args[..|args|] == args;
  }

  /** The command of a record: environment tokens, path and raw arguments,
      joined by single spaces. */
  function Command(path: string, clArgs: seq<Scalar>, envArgs: seq<Arg>, floatRepr: real -> string): string
  {
    JoinSpace(EnvTokens(envArgs, floatRepr) + [path] + RawTokens(clArgs, floatRepr))
  }

  /** This script's `string_of_benchmark_run`. */
  method StringOfBenchmarkRun(path: string, clArgs: seq<Scalar>, envArgs: seq<Arg>, floatRepr: real -> string)
    returns (cmd: string)
    ensures cmd == Command(path, clArgs, envArgs, floatRepr)
  {
    var cl := StringOfClArgs(clArgs, floatRepr);
    var clPart := (if clArgs != [] then " " else "") + cl;
    var env := StringOfEnvArgs(envArgs, floatRepr);
    var envPart := env + (if envArgs != [] then " " else "");
    GluedCommandLine(EnvTokens(envArgs, floatRepr), path, RawTokens(clArgs, floatRepr));
    cmd := envPart + path + clPart;
  }

  /** With neither environment nor command-line arguments the command is the path. */
  lemma CommandBare(path: string, floatRepr: real -> string)
    ensures Command(path, [], [], floatRepr) == path
  {
    assert EnvTokens([], floatRepr) + [path] + RawTokens([], floatRepr) == [path];
  }

  /** `{a['var']: str(a['val']) for a in env_args}`: the environment the child gets. */
  function EnvMap(vargs: seq<Arg>, floatRepr: real -> string): map<string, string>
  {
    if vargs == [] then map[]
    else EnvMap(vargs[..|vargs| - 1], floatRepr)[vargs[|vargs| - 1].name := Show(vargs[|vargs| - 1].val, floatRepr)]
  }

  /** The last environment argument with the given name, if any. */
  function LastArg(vargs: seq<Arg>, name: string): Option<Arg>
  {
    if vargs == [] then None
    else if vargs[|vargs| - 1].name == name then Some(vargs[|vargs| - 1])
    else LastArg(vargs[..|vargs| - 1], name)
  }

  /** The last argument with a name is one with that name and no later one has
      it; there is none exactly when no argument has the name. */
  lemma {:induction false} LastArgIsLast(vargs: seq<Arg>, name: string)
    ensures LastArg(vargs, name).None? <==> forall k :: 0 <= k < |vargs| ==> vargs[k].name != name
    ensures LastArg(vargs, name).Some? ==>
      exists k :: 0 <= k < |vargs| && vargs[k] == LastArg(vargs, name).value && vargs[k].name == name &&
        forall k' :: k < k' < |vargs| ==> vargs[k'].name != name
  {
    if vargs != [] {
      var init := vargs[..|vargs| - 1];
      LastArgIsLast(init, name);
      if vargs[|vargs| - 1].name != name {
        assert forall k :: 0 <= k < |init| ==> init[k] == vargs[k];
      }
    }
  }

  /** The child's environment defines exactly the names of the environment
      arguments, each bound to the printed value of its last occurrence. */
  lemma {:induction false} EnvMapLookup(vargs: seq<Arg>, floatRepr: real -> string, name: string)
    ensures name in EnvMap(vargs, floatRepr) <==> LastArg(vargs, name).Some?
    ensures name in EnvMap(vargs, floatRepr) ==>
      EnvMap(vargs, floatRepr)[name] == Show(LastArg(vargs, name).value.val, floatRepr)
  {
    if vargs != [] {
      EnvMapLookup(vargs[..|vargs| - 1], floatRepr, name);
    }
  }

  /** `run_benchmark`, from the command onwards: it builds the command and the
      child's environment, and writes the outcome into the record it was given.
      The return code is written only when the child exited; after a timeout the
      record keeps whatever return code it held before.  `failed` is the
      source's `benchmark_failed` flag. */
  method RunBenchmark(br: RunRecord, outcome: Outcome, now: string, hostName: string, elapsedSeconds: real,
                      floatRepr: real -> string)
    returns (cmd: string, env: map<string, string>, failed: bool)
    modifies br
    ensures cmd == Command(br.path, br.clArgs, br.envArgs, floatRepr)
    ensures env == EnvMap(br.envArgs, floatRepr)
    ensures failed <==> !(outcome.Exited? && outcome.code == 0)
    ensures br.path == old(br.path) && br.clArgs == old(br.clArgs) && br.envArgs == old(br.envArgs)
    ensures br.returnCode == if outcome.Exited? then Some(outcome.code) else old(br.returnCode)
    ensures br.timestamp == Some(now) && br.host == Some(hostName) && br.elapsed == Some(elapsedSeconds)
    ensures br.stdout == Some(outcome.out) && br.stderr == Some(outcome.err)
  {
    cmd := StringOfBenchmarkRun(br.path, br.clArgs, br.envArgs, floatRepr);
    env := EnvMap(br.envArgs, floatRepr);
    var childStdout := "";
    var childStderr := "";
    var returnCode: Option<int> := None;
    failed := false;
    match outcome {
      case Exited(code, out, err) =>
        childStdout, childStderr := out, err;
        returnCode := Some(code);
        if code != 0 {
          failed := true;
        }
      case TimedOut(out, err) =>
        childStdout, childStderr := out, err;
        failed := true;
    }
    if returnCode.Some? {
      br.returnCode := returnCode;
    }
    br.timestamp := Some(now);
    br.host := Some(hostName);
    br.elapsed := Some(elapsedSeconds);
    br.stdout := Some(childStdout);
    br.stderr := Some(childStderr);
  }

  /** A freshly built record that is run carries a return code exactly when the
      child exited, and the full output record either way. */
  method RunFresh(path: string, clArgs: seq<Scalar>, envArgs: seq<Arg>, outcome: Outcome, floatRepr: real -> string)
    returns (rc: Option<int>, out: Option<string>, failed: bool)
    ensures rc.Some? <==> outcome.Exited?
    ensures outcome.Exited? ==> rc == Some(outcome.code)
    ensures out == Some(outcome.out)
    ensures failed <==> (outcome.TimedOut? || outcome.code != 0)
  {
    var br := new RunRecord(path, clArgs, envArgs);
    var cmd, env;
    cmd, env, failed := RunBenchmark(br, outcome, "", "", 0.0, floatRepr);
    rc, out := br.returnCode, br.stdout;
  }
}
