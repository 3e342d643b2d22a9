/**
 * From parameter rows to benchmark runs: a row names the executable, the
 * environment variables and the command-line arguments of one run, and a run
 * renders as the shell command that starts it.
 */
module Benchmark {
  import opened Wrappers
  import opened Text
  import opened Parameter

  /** The key of a row that holds the path of the executable. */
  const PathToExecutable: string := "path_to_executable"

  /** One `{'var': name, 'val': val}` argument of a run. */
  datatype Arg = Arg(name: string, val: Scalar)

  /** The `benchmark_run` record before it has been run. */
  datatype BenchmarkRun = BenchmarkRun(path: Scalar, clArgs: seq<Arg>, envArgs: seq<Arg>)

  /** The exceptions the harness raises: `d[k]` on a missing key, and `+` of a
      string and a number when the executable path is not a string. */
  datatype RunError = KeyError(key: string) | TypeError | EvalFailed(e: EvalError)

  /** Python's `str` on a scalar; how a float prints is left to `floatRepr`. */
  function Show(v: Scalar, floatRepr: real -> string): string
  {
    match v
    case Str(s) => s
    case Int(i) => IntToString(i)
    case Float(x) => floatRepr(x)
    case Bool(b) => if b then "True" else "False"
  }

  // String conversions
  // ==================

  /** The token `-name val` of each command-line argument. */
  function ClToken(a: Arg, floatRepr: real -> string): string
  {
    "-" + a.name + " " + Show(a.val, floatRepr)
  }

  /** The token `name=val` of each environment argument. */
  function EnvToken(a: Arg, floatRepr: real -> string): string
  {
    a.name + "=" + Show(a.val, floatRepr)
  }

  function ClTokens(args: seq<Arg>, floatRepr: real -> string): (ts: seq<string>)
    ensures |ts| == |args|
    ensures forall k :: 0 <= k < |args| ==> ts[k] == ClToken(args[k], floatRepr)
  {
    seq(|args|, k requires 0 <= k < |args| => ClToken(args[k], floatRepr))
  }

  function EnvTokens(vargs: seq<Arg>, floatRepr: real -> string): (ts: seq<string>)
    ensures |ts| == |vargs|
    ensures forall k :: 0 <= k < |vargs| ==> ts[k] == EnvToken(vargs[k], floatRepr)
  {
    seq(|vargs|, k requires 0 <= k < |vargs| => EnvToken(vargs[k], floatRepr))
  }

  /** `string_of_cl_args`: the `-name val` tokens joined by single spaces. */
  method StringOfClArgs(args: seq<Arg>, floatRepr: real -> string) returns (out: string)
    ensures out == JoinSpace(ClTokens(args, floatRepr))
  {
    out := "";
    var i := 0;
    for k := 0 to |args|
      invariant i == k
      invariant out == JoinSpace(ClTokens(args[..k], floatRepr))
    {
      var sa := ClToken(args[k], floatRepr);
      assert ClTokens(args[..k + 1], floatRepr) == ClTokens(args[..k], floatRepr) + [sa];
      JoinSpaceSnoc(ClTokens(args[..k], floatRepr), sa);
      out := if i > 0 then out + " " + sa else sa;
      i := i + 1;
    }
    assert args[..|args|] == args;
  }

  /** `string_of_env_args`: the `name=val` tokens joined by single spaces. */
  method StringOfEnvArgs(vargs: seq<Arg>, floatRepr: real -> string) returns (out: string)
    ensures out == JoinSpace(EnvTokens(vargs, floatRepr))
  {
    out := "";
    var i := 0;
    for k := 0 to |vargs|
      invariant i == k
      invariant out == JoinSpace(EnvTokens(vargs[..k], floatRepr))
    {
      var o := EnvToken(vargs[k], floatRepr);
      assert EnvTokens(vargs[..k + 1], floatRepr) == EnvTokens(vargs[..k], floatRepr) + [o];
      JoinSpaceSnoc(EnvTokens(vargs[..k], floatRepr), o);
      out := if i > 0 then out + " " + o else o;
      i := i + 1;
    }
    assert vargs[..|vargs|] == vargs;
  }

  /** The command of a run: its environment tokens, the path and its argument
      tokens, all joined by single spaces. */
  function CommandLine(path: string, r: BenchmarkRun, floatRepr: real -> string): string
  {
    JoinSpace(EnvTokens(r.envArgs, floatRepr) + [path] + ClTokens(r.clArgs, floatRepr))
  }

  /** Gluing the pieces as `string_of_benchmark_run` does gives the space-joined token list. */
  lemma GluedCommandLine(env: seq<string>, p: string, cl: seq<string>)
    ensures JoinSpace(env) + (if env != [] then " " else "") + p + ((if cl != [] then " " else "") + JoinSpace(cl))
         == JoinSpace(env + [p] + cl)
  {
    if env != [] {
      JoinSpaceAppend(env, [p]);
    } else {
      assert env + [p] == [p];
    }
    if cl != [] {
      JoinSpaceAppend(env + [p], cl);
    } else {
      assert env + [p] + cl == env + [p];
    }
  }

  /** `string_of_benchmark_run`; a path that is not a string makes `+` raise. */
  method StringOfBenchmarkRun(r: BenchmarkRun, floatRepr: real -> string) returns (cmd: Result<string, RunError>)
    ensures !r.path.Str? ==> cmd == Failure(TypeError)
    ensures r.path.Str? ==> cmd == Success(CommandLine(r.path.s, r, floatRepr))
  {
    var cl := StringOfClArgs(r.clArgs, floatRepr);
    var clArgs := (if r.clArgs != [] then " " else "") + cl;
    var env := StringOfEnvArgs(r.envArgs, floatRepr);
    var envArgs := env + (if r.envArgs != [] then " " else "");
    if !r.path.Str? {
      return Failure(TypeError);
    }
    GluedCommandLine(EnvTokens(r.envArgs, floatRepr), r.path.s, ClTokens(r.clArgs, floatRepr));
    return Success(envArgs + r.path.s + clArgs);
  }

  /** With no arguments at all the command is the path itself. */
  lemma CommandLineBare(path: string, r: BenchmarkRun, floatRepr: real -> string)
    requires r.clArgs == [] && r.envArgs == []
    ensures CommandLine(path, r, floatRepr) == path
  {
    assert EnvTokens(r.envArgs, floatRepr) + [path] + ClTokens(r.clArgs, floatRepr) == [path];
  }

  /** A run with one environment variable and one argument renders as
      `VAR=val path -name val`. */
  lemma CommandLineOneEach(path: string, cl: Arg, env: Arg, floatRepr: real -> string)
    ensures CommandLine(path, BenchmarkRun(Str(path), [cl], [env]), floatRepr)
         == EnvToken(env, floatRepr) + " " + path + " " + ClToken(cl, floatRepr)
  {
    var e, c := EnvTokens([env], floatRepr), ClTokens([cl], floatRepr);
    assert e == [EnvToken(env, floatRepr)];
    assert c == [ClToken(cl, floatRepr)];
    assert e + [path] + c == e + ([path] + c);
    JoinSpaceAppend([path], c);
    JoinSpaceAppend(e, [path] + c);
  }

  /** Integers print in decimal: the argument `n` with value 30 is `-n 30`. */
  lemma ClTokenExample(floatRepr: real -> string)
    ensures ClToken(Arg("n", Int(30)), floatRepr) == "-n 30"
  {
    assert IntToString(30) == "30" by {
      assert DigitChar(3) == '3' && DigitChar(0) == '0';
      assert NatToString(30) == NatToString(3) + [DigitChar(0)];
    }
  }

  // Benchmark runs configuration
  // ============================

  /** Keys that do not go on the command line. */
  predicate NotCl(k: string, envVars: seq<string>, silentVars: seq<string>)
  {
    k in [PathToExecutable] + envVars + silentVars
  }

  /** The command-line arguments of a row: its pairs, in order, except the path,
      the environment variables and the silent variables. */
  function ClArgs(row: Row, envVars: seq<string>, silentVars: seq<string>): seq<Arg>
  {
    if row == [] then []
    else (if NotCl(row[0].key, envVars, silentVars) then [] else [Arg(row[0].key, row[0].val)])
         + ClArgs(row[1..], envVars, silentVars)
  }

  /** The environment arguments of a row: its pairs, in order, whose key is an
      environment variable. */
  function EnvArgs(row: Row, envVars: seq<string>): seq<Arg>
  {
    if row == [] then []
    else (if row[0].key in envVars then [Arg(row[0].key, row[0].val)] else [])
         + EnvArgs(row[1..], envVars)
  }

  /** The pairs that go nowhere: the path and silent variables that are not
      also environment variables. */
  function Dropped(row: Row, envVars: seq<string>, silentVars: seq<string>): seq<Arg>
  {
    if row == [] then []
    else (if NotCl(row[0].key, envVars, silentVars) && row[0].key !in envVars
          then [Arg(row[0].key, row[0].val)] else [])
         + Dropped(row[1..], envVars, silentVars)
  }

  /** `mk_benchmark_run`: the path is what the row's dictionary holds for it, so
      the last pair with that key. */
  function MkBenchmarkRun(row: Row, envVars: seq<string>, silentVars: seq<string>): Result<BenchmarkRun, RunError>
  {
    match Get(RowToDictionary(row), PathToExecutable)
    case None => Failure(KeyError(PathToExecutable))
    case Some(p) => Success(BenchmarkRun(p, ClArgs(row, envVars, silentVars), EnvArgs(row, envVars)))
  }

  lemma {:induction false} LastValueNone(row: Row, k: string)
    ensures LastValue(row, k).None? <==> !HasKey(row, k)
  {
    if row != [] {
      var init := row[..|row| - 1];
      LastValueNone(init, k);
      if HasKey(row, k) && row[|row| - 1].key != k {
        var j :| 0 <= j < |row| && row[j].key == k;
        assert init[j].key == k;
      }
      if HasKey(init, k) {
        var j :| 0 <= j < |init| && init[j].key == k;
        assert row[j].key == k;
      }
    }
  }

  /** The run descriptor of a row: a KeyError exactly when the row has no path
      key; otherwise the path is the last value given to that key. */
  lemma MkBenchmarkRunPath(row: Row, envVars: seq<string>, silentVars: seq<string>)
    ensures MkBenchmarkRun(row, envVars, silentVars).Failure? <==> !HasKey(row, PathToExecutable)
    ensures MkBenchmarkRun(row, envVars, silentVars).Failure? ==>
      MkBenchmarkRun(row, envVars, silentVars).error == KeyError(PathToExecutable)
    ensures MkBenchmarkRun(row, envVars, silentVars).Success? ==>
      Some(MkBenchmarkRun(row, envVars, silentVars).value.path) == LastValue(row, PathToExecutable)
  {
    RowToDictionaryGet(row, PathToExecutable);
    LastValueNone(row, PathToExecutable);
  }

  /** A command-line argument is a pair of the row whose key is neither the
      path, nor an environment variable, nor a silent variable. */
  lemma {:induction false} ClArgsMember(row: Row, envVars: seq<string>, silentVars: seq<string>, a: Arg)
    ensures a in ClArgs(row, envVars, silentVars) <==>
      Kvp(a.name, a.val) in row && a.name != PathToExecutable && a.name !in envVars && a.name !in silentVars
  {
    if row != [] {
      ClArgsMember(row[1..], envVars, silentVars, a);
      assert row == [row[0]] + row[1..];
    }
  }

  /** An environment argument is a pair of the row whose key is an environment variable. */
  lemma {:induction false} EnvArgsMember(row: Row, envVars: seq<string>, a: Arg)
    ensures a in EnvArgs(row, envVars) <==> Kvp(a.name, a.val) in row && a.name in envVars
  {
    if row != [] {
      EnvArgsMember(row[1..], envVars, a);
      assert row == [row[0]] + row[1..];
    }
  }

  /** No environment variable reaches the command line. */
  lemma EnvVarsNotOnCommandLine(row: Row, envVars: seq<string>, silentVars: seq<string>)
    ensures forall a :: a in ClArgs(row, envVars, silentVars) ==> a.name !in envVars
  {
    forall a | a in ClArgs(row, envVars, silentVars) ensures a.name !in envVars {
      ClArgsMember(row, envVars, silentVars, a);
    }
  }

  /** Both argument lists keep the order of the row: splitting the row splits them. */
  lemma ArgsKeepOrder(a: Row, b: Row, envVars: seq<string>, silentVars: seq<string>)
    ensures ClArgs(a + b, envVars, silentVars) == ClArgs(a, envVars, silentVars) + ClArgs(b, envVars, silentVars)
    ensures EnvArgs(a + b, envVars) == EnvArgs(a, envVars) + EnvArgs(b, envVars)
  {
    ClArgsAppend(a, b, envVars, silentVars);
    EnvArgsAppend(a, b, envVars);
  }

  lemma {:induction false} ClArgsAppend(a: Row, b: Row, envVars: seq<string>, silentVars: seq<string>)
    ensures ClArgs(a + b, envVars, silentVars) == ClArgs(a, envVars, silentVars) + ClArgs(b, envVars, silentVars)
  {
    if a == [] {
      assert a + b == b;
    } else {
      var h := ClArgsHead(a, b, envVars, silentVars);
      ClArgsAppend(a[1..], b, envVars, silentVars);
      var ct, cb := ClArgs(a[1..], envVars, silentVars), ClArgs(b, envVars, silentVars);
      assert h + (ct + cb) == (h + ct) + cb;
    }
  }

  /** The first pair contributes the same arguments to `a` and to `a + b`. */
  lemma ClArgsHead(a: Row, b: Row, envVars: seq<string>, silentVars: seq<string>) returns (h: seq<Arg>)
    requires a != []
    ensures ClArgs(a, envVars, silentVars) == h + ClArgs(a[1..], envVars, silentVars)
    ensures ClArgs(a + b, envVars, silentVars) == h + ClArgs(a[1..] + b, envVars, silentVars)
  {
    h := if NotCl(a[0].key, envVars, silentVars) then [] else [Arg(a[0].key, a[0].val)];
    assert (a + b)[0] == a[0] && (a + b)[1..] == a[1..] + b;
  }

  lemma {:induction false} EnvArgsAppend(a: Row, b: Row, envVars: seq<string>)
    ensures EnvArgs(a + b, envVars) == EnvArgs(a, envVars) + EnvArgs(b, envVars)
  {
    if a == [] {
      assert a + b == b;
    } else {
      var h := EnvArgsHead(a, b, envVars);
      var et, eb := EnvArgs(a[1..], envVars), EnvArgs(b, envVars);
      assert EnvArgs(a[1..] + b, envVars) == et + eb by {
        EnvArgsAppend(a[1..], b, envVars);
      }
      assert h + (et + eb) == (h + et) + eb;
    }
  }

  /** The first pair contributes the same arguments to `a` and to `a + b`. */
  lemma EnvArgsHead(a: Row, b: Row, envVars: seq<string>) returns (h: seq<Arg>)
    requires a != []
    ensures EnvArgs(a, envVars) == h + EnvArgs(a[1..], envVars)
    ensures EnvArgs(a + b, envVars) == h + EnvArgs(a[1..] + b, envVars)
  {
    h := if a[0].key in envVars then [Arg(a[0].key, a[0].val)] else [];
    assert (a + b)[0] == a[0] && (a + b)[1..] == a[1..] + b;
  }

  /** The argument each pair of a row stands for, in row order. */
  function RowArgs(row: Row): (args: seq<Arg>)
    ensures |args| == |row|
    ensures forall i :: 0 <= i < |row| ==> args[i] == Arg(row[i].key, row[i].val)
  {
    if row == [] then [] else [Arg(row[0].key, row[0].val)] + RowArgs(row[1..])
  }

  /** Each pair of the row goes to exactly one of the command line, the
      environment, or nowhere: the three lists together hold the row's
      arguments, each as often as the row holds it. */
  lemma {:induction false} ArgsPartitionRow(row: Row, envVars: seq<string>, silentVars: seq<string>)
    ensures multiset(ClArgs(row, envVars, silentVars)) + multiset(EnvArgs(row, envVars)) +
      multiset(Dropped(row, envVars, silentVars)) == multiset(RowArgs(row))
    ensures |ClArgs(row, envVars, silentVars)| + |EnvArgs(row, envVars)| + |Dropped(row, envVars, silentVars)| == |row|
  {
    if row != [] {
      var hc, he, hd := PartitionHead(row, envVars, silentVars);
      var t := row[1..];
      ArgsPartitionRow(t, envVars, silentVars);
      var c, e, d := ClArgs(t, envVars, silentVars), EnvArgs(t, envVars), Dropped(t, envVars, silentVars);
      ThreeWaySplit(hc, c, he, e, hd, d, [Arg(row[0].key, row[0].val)], RowArgs(t));
    }
  }

  /** Splitting the head and the tail of a list three ways splits the list so. */
  lemma ThreeWaySplit<T>(hc: seq<T>, c: seq<T>, he: seq<T>, e: seq<T>, hd: seq<T>, d: seq<T>, h: seq<T>, r: seq<T>)
    requires multiset(hc) + multiset(he) + multiset(hd) == multiset(h) && |hc| + |he| + |hd| == |h|
    requires multiset(c) + multiset(e) + multiset(d) == multiset(r) && |c| + |e| + |d| == |r|
    ensures multiset(hc + c) + multiset(he + e) + multiset(hd + d) == multiset(h + r)
    ensures |hc + c| + |he + e| + |hd + d| == |h + r|
  {
    assert multiset(hc + c) == multiset(hc) + multiset(c);
    assert multiset(he + e) == multiset(he) + multiset(e);
    assert multiset(hd + d) == multiset(hd) + multiset(d);
    assert multiset(h + r) == multiset(h) + multiset(r);
  }

  /** The first pair of a row goes to exactly one of the three lists. */
  lemma PartitionHead(row: Row, envVars: seq<string>, silentVars: seq<string>) returns (hc: seq<Arg>, he: seq<Arg>, hd: seq<Arg>)
    requires row != []
    ensures ClArgs(row, envVars, silentVars) == hc + ClArgs(row[1..], envVars, silentVars)
    ensures EnvArgs(row, envVars) == he + EnvArgs(row[1..], envVars)
    ensures Dropped(row, envVars, silentVars) == hd + Dropped(row[1..], envVars, silentVars)
    ensures RowArgs(row) == [Arg(row[0].key, row[0].val)] + RowArgs(row[1..])
    ensures multiset(hc) + multiset(he) + multiset(hd) == multiset([Arg(row[0].key, row[0].val)])
    ensures |hc| + |he| + |hd| == 1
  {
    var k, a := row[0].key, Arg(row[0].key, row[0].val);
    hc := if NotCl(k, envVars, silentVars) then [] else [a];
    he := if k in envVars then [a] else [];
    hd := if NotCl(k, envVars, silentVars) && k !in envVars then [a] else [];
    if k in envVars {
      assert NotCl(k, envVars, silentVars);
    }
  }

  /** Pair by pair: an argument of the row is on the command line, in the
      environment or dropped, and in no two of them at once. */
  lemma ArgsPartitionMember(row: Row, envVars: seq<string>, silentVars: seq<string>, a: Arg)
    ensures a in RowArgs(row) <==>
      a in ClArgs(row, envVars, silentVars) || a in EnvArgs(row, envVars) || a in Dropped(row, envVars, silentVars)
    ensures a in ClArgs(row, envVars, silentVars) ==> a !in EnvArgs(row, envVars) && a !in Dropped(row, envVars, silentVars)
    ensures a in EnvArgs(row, envVars) ==> a !in Dropped(row, envVars, silentVars)
  {
    ArgsPartitionRow(row, envVars, silentVars);
    var mc, me, md := multiset(ClArgs(row, envVars, silentVars)), multiset(EnvArgs(row, envVars)),
      multiset(Dropped(row, envVars, silentVars));
    ClArgsMember(row, envVars, silentVars, a);
    EnvArgsMember(row, envVars, a);
    DroppedMember(row, envVars, silentVars, a);
    assert a in RowArgs(row) <==> a in multiset(RowArgs(row));
    assert a in multiset(RowArgs(row)) <==> a in mc || a in me || a in md;
  }

  /** A dropped argument is a pair of the row whose key is the path or a silent
      key, and not an environment key. */
  lemma {:induction false} DroppedMember(row: Row, envVars: seq<string>, silentVars: seq<string>, a: Arg)
    ensures a in Dropped(row, envVars, silentVars) <==>
      Kvp(a.name, a.val) in row && (a.name == PathToExecutable || a.name in silentVars) && a.name !in envVars
  {
    if row != [] {
      DroppedMember(row[1..], envVars, silentVars, a);
      assert row == [row[0]] + row[1..];
    }
  }

  /** `mk_benchmark_runs`: one run per row, in the order of the rows; the first
      row without a path raises its KeyError. */
  method MkBenchmarkRuns(rows: Rows, envVars: seq<string>, silentVars: seq<string>)
    returns (runs: Result<seq<BenchmarkRun>, RunError>)
    ensures runs.Success? <==> forall i :: 0 <= i < |rows| ==> HasKey(rows[i], PathToExecutable)
    ensures runs.Failure? ==> runs.error == KeyError(PathToExecutable)
    ensures runs.Success? ==> |runs.value| == |rows|
    ensures runs.Success? ==>
      forall i :: 0 <= i < |rows| ==> Success(runs.value[i]) == MkBenchmarkRun(rows[i], envVars, silentVars)
  {
    var acc: seq<BenchmarkRun> := [];
    for i := 0 to |rows|
      invariant |acc| == i
      invariant forall t :: 0 <= t < i ==> HasKey(rows[t], PathToExecutable)
      invariant forall t :: 0 <= t < i ==> Success(acc[t]) == MkBenchmarkRun(rows[t], envVars, silentVars)
    {
      MkBenchmarkRunPath(rows[i], envVars, silentVars);
      var r := MkBenchmarkRun(rows[i], envVars, silentVars);
      if r.Failure? {
        return Failure(r.error);
      }
      acc := acc + [r.value];
    }
    return Success(acc);
  }

  // Benchmark invocation
  // ====================

  /** The command lines of the runs, each followed by a newline. */
  function Lines(runs: seq<BenchmarkRun>, floatRepr: real -> string): Result<string, RunError>
  {
    if runs == [] then Success("")
    else
      var init :- Lines(runs[..|runs| - 1], floatRepr);
      var last := runs[|runs| - 1];
      if last.path.Str? then Success(init + CommandLine(last.path.s, last, floatRepr) + "\n")
      else Failure(TypeError)
  }

  /** `dry_runs`: evaluate the expression, build its runs, and print one command
      per run. */
  method DryRuns(expr: Expr, envVars: seq<string>, silentVars: seq<string>, floatRepr: real -> string)
    returns (lines: Result<string, RunError>)
    ensures Eval(expr).Failure? ==> lines == Failure(EvalFailed(Eval(expr).error))
    ensures Eval(expr).Success? && (exists i :: 0 <= i < |Eval(expr).value| && !HasKey(Eval(expr).value[i], PathToExecutable)) ==>
      lines == Failure(KeyError(PathToExecutable))
    ensures Eval(expr).Success? && (forall i :: 0 <= i < |Eval(expr).value| ==> HasKey(Eval(expr).value[i], PathToExecutable)) ==>
      exists runs :: |runs| == |Eval(expr).value| &&
        (forall i :: 0 <= i < |runs| ==> Success(runs[i]) == MkBenchmarkRun(Eval(expr).value[i], envVars, silentVars)) &&
        lines == Lines(runs, floatRepr)
  {
    var value := Eval(expr);
    if value.Failure? {
      return Failure(EvalFailed(value.error));
    }
    var br := MkBenchmarkRuns(value.value, envVars, silentVars);
    if br.Failure? {
      return Failure(br.error);
    }
    lines := PrintRuns(br.value, floatRepr);
  }

  /** The loop of `dry_runs`: one command line per run, each followed by a
      newline; the first path that is not a string raises. */
  method PrintRuns(runs: seq<BenchmarkRun>, floatRepr: real -> string) returns (lines: Result<string, RunError>)
    ensures lines == Lines(runs, floatRepr)
  {
    var out := "";
    for i := 0 to |runs|
      invariant Lines(runs[..i], floatRepr) == Success(out)
    {
      assert runs[..i + 1][..i] == runs[..i];
      var cmd := StringOfBenchmarkRun(runs[i], floatRepr);
      if cmd.Failure? {
        LinesFailure(runs, i + 1, floatRepr);
        return Failure(cmd.error);
      }
      out := out + cmd.value + "\n";
    }
    assert runs[..|runs|] == runs;
    return Success(out);
  }

  /** Once a prefix of the runs fails to print, every longer prefix does. */
  lemma {:induction false} LinesFailure(runs: seq<BenchmarkRun>, n: nat, floatRepr: real -> string)
    requires n <= |runs| && Lines(runs[..n], floatRepr).Failure?
    ensures Lines(runs, floatRepr) == Failure(TypeError)
    decreases |runs| - n
  {
    if n < |runs| {
      assert runs[..n + 1][..n] == runs[..n];
      LinesFailure(runs, n + 1, floatRepr);
    } else {
      assert runs[..n] == runs;
      LinesOnlyTypeError(runs, floatRepr);
    }
  }

  lemma {:induction false} LinesOnlyTypeError(runs: seq<BenchmarkRun>, floatRepr: real -> string)
    ensures Lines(runs, floatRepr).Failure? ==> Lines(runs, floatRepr).error == TypeError
  {
    if runs != [] {
      LinesOnlyTypeError(runs[..|runs| - 1], floatRepr);
    }
  }
}
