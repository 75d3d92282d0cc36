/**
 * The invocation builder: which benchmark binary runs, with which argument
 * vector and which environment.
 */
module Invocation {
  import opened Wrappers
  import opened Text
  import opened Decimal

  /** The settings one run is started with (its command-line options). */
  datatype Config = Config(
    op: string,            // collective operation name
    innerLoop: int,        // iterations of the benchmark's inner loop
    deviceIds: seq<int>,   // GPU device ids
    testsDir: string,      // the benchmark tree, already made absolute
    disableP2P: bool)      // disable peer-to-peer access between GPUs

  /** The command-line choices for the operation, in their declared order. */
  const Ops: seq<string> := ["sendrecv", "gather", "scatter", "broadcast", "reduce",
    "all_gather", "reduce_scatter", "all_reduce", "alltoall", "hypercube"]

  /** Operation name to benchmark binary name. */
  const OpMap: map<string, string> := map[
    "sendrecv" := "sendrecv_perf",
    "gather" := "gather_perf",
    "scatter" := "scatter_perf",
    "broadcast" := "broadcast_perf",
    "reduce" := "reduce_perf",
    "reduce_scatter" := "reduce_scatter_perf",
    "all_gather" := "all_gather_perf",
    "all_reduce" := "all_reduce_perf",
    "alltoall" := "alltoall_perf",
    "hypercube" := "hypercube_perf"]

  const VisibleDevicesVar: string := "CUDA_VISIBLE_DEVICES"
  const P2PDisableVar: string := "NCCL_P2P_DISABLE"

  /** Every operation's binary is the `<op>_perf` program of the benchmark tree. */
  lemma BinaryName(op: string)
    requires op in OpMap
    ensures OpMap[op] == op + "_perf"
  {
    if op == "sendrecv" { assert OpMap[op] == "sendrecv" + "_perf"; }
    else if op == "gather" { assert OpMap[op] == "gather" + "_perf"; }
    else if op == "scatter" { assert OpMap[op] == "scatter" + "_perf"; }
    else if op == "broadcast" { assert OpMap[op] == "broadcast" + "_perf"; }
    else if op == "reduce" { assert OpMap[op] == "reduce" + "_perf"; }
    else if op == "reduce_scatter" { assert OpMap[op] == "reduce_scatter" + "_perf"; }
    else if op == "all_gather" { assert OpMap[op] == "all_gather" + "_perf"; }
    else if op == "all_reduce" { assert OpMap[op] == "all_reduce" + "_perf"; }
    else if op == "alltoall" { assert OpMap[op] == "alltoall" + "_perf"; }
    else { assert OpMap[op] == "hypercube" + "_perf"; }
  }

  /**
   * The table has one entry per command-line choice, so the lookup never
   * fails for an accepted operation, and no two operations share a binary.
   */
  lemma OpMapMatchesChoices()
    ensures OpMap.Keys == set op | op in Ops
    ensures forall a, b :: a in OpMap && b in OpMap && OpMap[a] == OpMap[b] ==> a == b
  {
    forall a, b | a in OpMap && b in OpMap && OpMap[a] == OpMap[b]
      ensures a == b
    {
      BinaryName(a);
      BinaryName(b);
      assert OpMap[a][..|OpMap[a]| - 5] == a;
      assert OpMap[b][..|OpMap[b]| - 5] == b;
    }
  }

  /** `<abs dir>/build/<op_map[op]>`. */
  function BinaryPath(testsDir: string, op: string): (path: string)
    requires op in OpMap
    ensures |path| >= |testsDir| && path[..|testsDir|] == testsDir
    ensures path[|testsDir|..] == "/build/" + op + "_perf"
  {
    BinaryName(op);
    var path := testsDir + "/build/" + OpMap[op];
    assert path == testsDir + ("/build/" + op + "_perf");
    path
  }

  /**
   * The fixed part of the sweep: one GPU per thread, 4 bytes to 1G doubling,
   * blocking, uint8, two averaging passes, no correctness check.
   */
  const SweepOptions: seq<string> := [
    "--ngpus", "1",
    "--minbytes", "4",
    "--maxbytes", "1G",
    "--stepfactor", "2",
    "--blocking", "1",
    "--datatype", "uint8",
    "--average", "2",
    "--check", "0"]

  /** The ten option/value pairs passed to the benchmark. */
  function Options(threads: nat, iters: int): seq<string>
  {
    ["--nthreads", FormatInt(threads)] + SweepOptions + ["--iters", FormatInt(iters)]
  }

  /** The argument vector: the binary, then its options. */
  function Argv(path: string, threads: nat, iters: int): (argv: seq<string>)
    ensures |argv| == 21 && argv[0] == path
  {
    [path] + Options(threads, iters)
  }

  /** The value the benchmark reads for `flag` from a list of option/value pairs. */
  function OptionValue(args: seq<string>, flag: string): Option<string>
  {
    if |args| < 2 then None
    else if args[0] == flag then Some(args[1])
    else OptionValue(args[2..], flag)
  }

  /** Options after the first occurrence of a flag do not change what it reads. */
  lemma {:induction false} OptionValuePrefix(a: seq<string>, b: seq<string>, flag: string)
    requires |a| % 2 == 0 && OptionValue(a, flag).Some?
    ensures OptionValue(a + b, flag) == OptionValue(a, flag)
  {
    if a[0] != flag {
      assert (a + b)[2..] == a[2..] + b;
      OptionValuePrefix(a[2..], b, flag);
    }
  }

  /** A flag missing from the first options is looked up in the rest. */
  lemma {:induction false} OptionValueSkip(a: seq<string>, b: seq<string>, flag: string)
    requires |a| % 2 == 0 && OptionValue(a, flag).None?
    ensures OptionValue(a + b, flag) == OptionValue(b, flag)
  {
    if |a| == 0 {
      assert a + b == b;
    } else {
      assert (a + b)[2..] == a[2..] + b;
      OptionValueSkip(a[2..], b, flag);
    }
  }

  /** The thread count reaches the benchmark as the value of `--nthreads`. */
  lemma {:induction false} ArgvThreads(path: string, threads: nat, iters: int)
    ensures OptionValue(Argv(path, threads, iters)[1..], "--nthreads") == Some(FormatInt(threads))
  {
    var head := ["--nthreads", FormatInt(threads)];
    var tail := ["--iters", FormatInt(iters)];
    assert Argv(path, threads, iters)[1..] == head + (SweepOptions + tail);
    OptionValuePrefix(head, SweepOptions + tail, "--nthreads");
  }

  /** A flag set by neither of two leading option lists is looked up in what follows them. */
  lemma OptionValueAfter(head: seq<string>, mid: seq<string>, tail: seq<string>, flag: string)
    requires |head| % 2 == 0 && |mid| % 2 == 0
    requires OptionValue(head, flag).None? && flag !in mid
    ensures OptionValue(head + mid + tail, flag) == OptionValue(tail, flag)
  {
    OptionValueAbsent(mid, flag);
    OptionValueSkip(mid, tail, flag);
    OptionValueSkip(head, mid + tail, flag);
    assert head + mid + tail == head + (mid + tail);
  }

  /** The iteration count reaches the benchmark as the value of `--iters`. */
  lemma ArgvIters(path: string, threads: nat, iters: int)
    ensures OptionValue(Argv(path, threads, iters)[1..], "--iters") == Some(FormatInt(iters))
  {
    var head := ["--nthreads", FormatInt(threads)];
    var tail := ["--iters", FormatInt(iters)];
    assert Argv(path, threads, iters)[1..] == head + SweepOptions + tail;
    assert "--iters" !in SweepOptions && |SweepOptions| == 16;
    assert head[0] != "--iters" && head[2..] == [];
    assert OptionValue(head, "--iters").None?;
    OptionValueAfter(head, SweepOptions, tail, "--iters");
  }

  /**
   * The benchmark, reading its options, sees a thread count equal to the
   * number of devices and the requested iteration count.
   */
  lemma ArgvSettings(path: string, threads: nat, iters: int)
    ensures var opts := Argv(path, threads, iters)[1..];
      && OptionValue(opts, "--nthreads").Some?
      && ParseDecimal(OptionValue(opts, "--nthreads").value) == Some(threads)
      && OptionValue(opts, "--iters").Some?
      && ParseDecimal(OptionValue(opts, "--iters").value) == Some(iters)
  {
    ArgvThreads(path, threads, iters);
    ArgvIters(path, threads, iters);
    ParseFormat(threads);
    ParseFormat(iters);
  }

  /**
   * Every option of the fixed sweep reaches the benchmark with its fixed
   * value, whatever the binary path, thread count and iteration count are.
   */
  lemma {:induction false} ArgvFixedSweep(path: string, threads: nat, iters: int, flag: string)
    requires flag != "--nthreads" && OptionValue(SweepOptions, flag).Some?
    ensures OptionValue(Argv(path, threads, iters)[1..], flag) == OptionValue(SweepOptions, flag)
  {
    var head := ["--nthreads", FormatInt(threads)];
    var tail := ["--iters", FormatInt(iters)];
    assert Argv(path, threads, iters)[1..] == head + (SweepOptions + tail);
    assert OptionValue(head, flag).None?;
    OptionValueSkip(head, SweepOptions + tail, flag);
    OptionValuePrefix(SweepOptions, tail, flag);
  }

  /** What the fixed sweep asks of the benchmark, option by option. */
  lemma SweepSettings()
    ensures OptionValue(SweepOptions, "--ngpus") == Some("1")
    ensures OptionValue(SweepOptions, "--minbytes") == Some("4")
    ensures OptionValue(SweepOptions, "--maxbytes") == Some("1G")
    ensures OptionValue(SweepOptions, "--stepfactor") == Some("2")
    ensures OptionValue(SweepOptions, "--blocking") == Some("1")
    ensures OptionValue(SweepOptions, "--datatype") == Some("uint8")
    ensures OptionValue(SweepOptions, "--average") == Some("2")
    ensures OptionValue(SweepOptions, "--check") == Some("0")
  {
  }

  /** A flag that appears nowhere in the options is not set by them. */
  lemma {:induction false} OptionValueAbsent(args: seq<string>, flag: string)
    requires flag !in args
    ensures OptionValue(args, flag).None?
  {
    if |args| >= 2 {
      assert args[0] != flag;
      assert forall i :: 0 <= i < |args[2..]| ==> args[2..][i] == args[i + 2];
      OptionValueAbsent(args[2..], flag);
    }
  }

  /** The fixed sweep sets neither the thread count nor the iteration count. */
  lemma SweepLeavesSettings()
    ensures OptionValue(SweepOptions, "--nthreads").None?
    ensures OptionValue(SweepOptions, "--iters").None?
  {
    assert "--nthreads" !in SweepOptions;
    assert "--iters" !in SweepOptions;
    OptionValueAbsent(SweepOptions, "--nthreads");
    OptionValueAbsent(SweepOptions, "--iters");
  }

  /** Only the binary path, the thread count and the iteration count vary. */
  lemma ArgvFixedSlots(p1: string, t1: nat, i1: int, p2: string, t2: nat, i2: int)
    ensures var a1, a2 := Argv(p1, t1, i1), Argv(p2, t2, i2);
      forall k :: 0 <= k < 21 && k != 0 && k != 2 && k != 20 ==> a1[k] == a2[k]
  {
  }

  /**
   * `','.join(str(i) for i in ids)`: empty for no ids; otherwise splitting it
   * on commas gives exactly the decimal texts of the ids, in order, and
   * parsing each field gives the ids back.
   */
  function DeviceList(ids: seq<int>): (s: string)
    ensures |ids| == 0 ==> s == ""
    ensures |ids| > 0 ==> SplitOn(s, ',') == seq(|ids|, k requires 0 <= k < |ids| => FormatInt(ids[k]))
    ensures |ids| > 0 ==>
      var fields := SplitOn(s, ',');
      |fields| == |ids| && forall k :: 0 <= k < |ids| ==> ParseDecimal(fields[k]) == Some(ids[k])
  {
    var parts := seq(|ids|, k requires 0 <= k < |ids| => FormatInt(ids[k]));
    CommaFieldsParse(parts, ids);
    Join(parts, ",")
  }

  /** The comma-join of the decimal texts of `ids` splits back to those texts, which parse to `ids`. */
  lemma CommaFieldsParse(parts: seq<string>, ids: seq<int>)
    requires |parts| == |ids|
    requires forall k :: 0 <= k < |ids| ==> parts[k] == FormatInt(ids[k])
    ensures |ids| > 0 ==> SplitOn(Join(parts, ","), ',') == parts
    ensures |ids| > 0 ==>
      var fields := SplitOn(Join(parts, ","), ',');
      |fields| == |ids| && forall k :: 0 <= k < |ids| ==> ParseDecimal(fields[k]) == Some(ids[k])
  {
    if |ids| > 0 {
      forall k | 0 <= k < |parts|
        ensures ',' !in parts[k]
      {
        assert forall i :: 0 <= i < |parts[k]| ==> parts[k][i] != ',';
      }
      SplitOnJoin(parts, ',');
      assert [','] == ",";
      forall k | 0 <= k < |ids|
        ensures ParseDecimal(parts[k]) == Some(ids[k])
      {
        ParseFormat(ids[k]);
      }
    }
  }

  /**
   * The child's environment: a copy of the inherited one with the device
   * list set and, when peer-to-peer is disabled, the disable flag set to "1".
   */
  function Overlay(inherited: map<string, string>, ids: seq<int>, disableP2P: bool)
    : (env: map<string, string>)
    ensures VisibleDevicesVar in env && env[VisibleDevicesVar] == DeviceList(ids)
    ensures disableP2P ==> P2PDisableVar in env && env[P2PDisableVar] == "1"
    ensures !disableP2P ==> (P2PDisableVar in env <==> P2PDisableVar in inherited)
    ensures !disableP2P && P2PDisableVar in env ==> env[P2PDisableVar] == inherited[P2PDisableVar]
    ensures forall k :: k != VisibleDevicesVar && k != P2PDisableVar ==>
      (k in env <==> k in inherited) && (k in env ==> env[k] == inherited[k])
  {
    var env := inherited[VisibleDevicesVar := DeviceList(ids)];
    if disableP2P then env[P2PDisableVar := "1"] else env
  }

  /** What the run starts: the binary's argument vector and its environment. */
  datatype Invocation = Invocation(argv: seq<string>, env: map<string, string>)

  /**
   * Builds the invocation, or fails with the binary's path when that path is
   * not among the files on disk; nothing is started in that case.
   */
  function Build(cfg: Config, inherited: map<string, string>, onDisk: set<string>)
    : (r: Result<Invocation, string>)
    requires cfg.op in OpMap
    ensures r.Failure? <==> BinaryPath(cfg.testsDir, cfg.op) !in onDisk
    ensures r.Failure? ==> r.error == BinaryPath(cfg.testsDir, cfg.op)
    ensures r.Success? ==>
      && r.value.argv == Argv(BinaryPath(cfg.testsDir, cfg.op), |cfg.deviceIds|, cfg.innerLoop)
      && r.value.env == Overlay(inherited, cfg.deviceIds, cfg.disableP2P)
  {
    var path := BinaryPath(cfg.testsDir, cfg.op);
    if path !in onDisk then Failure(path)
    else Success(Invocation(Argv(path, |cfg.deviceIds|, cfg.innerLoop),
                            Overlay(inherited, cfg.deviceIds, cfg.disableP2P)))
  }
}
