/**
 * One benchmark run of the report builder, end to end: build the command
 * and its environment, read the benchmark's standard output into rows,
 * type the integer columns, attach the run's metadata and put the columns
 * in report order. Starting the benchmark, the wall clock and the node
 * name are outside the model: the benchmark's output, the date and the
 * node id are parameters.
 */
module Run {
  import opened Wrappers
  import opened Text
  import opened Decimal
  import opened Invocation
  import opened Parser
  import opened Schema

  /** Why a run ends without a report. */
  datatype RunError =
    | MissingBinary(path: string)               // the benchmark binary is not on disk
    | BadInteger(column: string, token: string)  // an integer column holds a non-integer token

  /**
   * The metadata of a run reads the environment handed to the benchmark;
   * the overlay only touches the device and p2p variables, so the metadata
   * is what the inherited environment alone gives.
   */
  lemma MetadataFromInherited(inherited: map<string, string>, op: string, ids: seq<int>,
                              disableP2P: bool, timestamp: string, nodeId: string)
    ensures RunMetadata(Overlay(inherited, ids, disableP2P), op, ids, disableP2P, timestamp, nodeId)
         == RunMetadata(inherited, op, ids, disableP2P, timestamp, nodeId)
  {
    var env := Overlay(inherited, ids, disableP2P);
    assert "HAS_IOMMU" != VisibleDevicesVar && "HAS_IOMMU" != P2PDisableVar;
    assert "CARD_NUM" != VisibleDevicesVar && "CARD_NUM" != P2PDisableVar;
    assert EnvGet(env, "HAS_IOMMU", "unknown") == EnvGet(inherited, "HAS_IOMMU", "unknown");
    assert EnvGet(env, "CARD_NUM", "unknown") == EnvGet(inherited, "CARD_NUM", "unknown");
  }

  /**
   * A run: a missing binary stops it before anything else; otherwise the
   * report is the one built from the data rows of the benchmark's output
   * with the run's metadata, or the first integer-typing failure.
   */
  method Run(cfg: Config, inherited: map<string, string>, onDisk: set<string>,
             stdout: string, timestamp: string, nodeId: string)
    returns (r: Result<Table, RunError>)
    requires cfg.op in OpMap
    ensures BinaryPath(cfg.testsDir, cfg.op) !in onDisk ==>
      r == Failure(MissingBinary(BinaryPath(cfg.testsDir, cfg.op)))
    ensures BinaryPath(cfg.testsDir, cfg.op) in onDisk ==>
      var built := BuildReport(DataRows(SplitLines(stdout), cfg.op),
        RunMetadata(inherited, cfg.op, cfg.deviceIds, cfg.disableP2P, timestamp, nodeId));
      && (r.Success? <==> built.Success?)
      && (r.Success? ==> r.value == built.value)
      && (r.Failure? ==> r.error == BadInteger(built.error.column, built.error.token))
  {
    var invocation := Build(cfg, inherited, onDisk);
    if invocation.Failure? {
      return Failure(MissingBinary(invocation.error));
    }
    // The benchmark runs with invocation.value.argv and invocation.value.env
    // and prints `stdout`.
    var report := ParseOutput(stdout, cfg.op);
    var typed := TypeTable(report);
    if typed.Failure? {
      return Failure(BadInteger(typed.error.column, typed.error.token));
    }
    var meta := RunMetadata(invocation.value.env, cfg.op, cfg.deviceIds, cfg.disableP2P, timestamp, nodeId);
    MetadataFromInherited(inherited, cfg.op, cfg.deviceIds, cfg.disableP2P, timestamp, nodeId);
    var t := Table(ParsedColumns, typed.value);
    ReportLayout(t, meta);
    r := Success(Reindex(Enrich(t, meta), ReportColumns));
  }

  /**
   * Every row of a run's report starts with the run's own metadata: the
   * date, the node, the inherited IOMMU and card tags, the op, the device
   * list and the p2p tag (`shm` exactly when p2p is disabled).
   */
  lemma ReportCarriesRunMetadata(rows: seq<seq<string>>, inherited: map<string, string>, op: string,
                                 ids: seq<int>, disableP2P: bool, timestamp: string, nodeId: string)
    requires forall k :: 0 <= k < |rows| ==> |rows[k]| == 13
    requires BuildReport(rows, RunMetadata(inherited, op, ids, disableP2P, timestamp, nodeId)).Success?
    ensures var t := BuildReport(rows, RunMetadata(inherited, op, ids, disableP2P, timestamp, nodeId)).value;
      forall k :: 0 <= k < |t.rows| ==>
        && |t.rows[k]| == 20
        && t.rows[k][..7] == [Str(timestamp), Str(nodeId), Str(EnvGet(inherited, "HAS_IOMMU", "unknown")),
                              Str(EnvGet(inherited, "CARD_NUM", "unknown")), Str(op), Str(ListRepr(ids)),
                              Str(P2PTag(disableP2P))]
  {
    var m := RunMetadata(inherited, op, ids, disableP2P, timestamp, nodeId);
    assert MetaCells(m) == [Str(timestamp), Str(nodeId), Str(EnvGet(inherited, "HAS_IOMMU", "unknown")),
                            Str(EnvGet(inherited, "CARD_NUM", "unknown")), Str(op), Str(ListRepr(ids)),
                            Str(P2PTag(disableP2P))];
    ReportRows(rows, m);
  }

  /**
   * A hypercube line of 12 tokens gets the placeholder as its fourth cell,
   * a text column: the repaired row types exactly when the line's own size,
   * count and root tokens (its tokens 0, 1 and 3) convert, those tokens give
   * the three integer cells, and the placeholder, which would not convert,
   * stays text.
   */
  lemma RepairedRowTyping(tokens: seq<string>)
    requires |tokens| == 12
    ensures ToInt64(Placeholder) == None
    ensures var row := Repair(tokens, Hypercube);
      && |row| == 13 && !IsIntColumn(3)
      && (RowIsTypable(row) <==>
            ToInt64(tokens[0]).Some? && ToInt64(tokens[1]).Some? && ToInt64(tokens[3]).Some?)
      && (RowIsTypable(row) ==>
            && TypeRow(row)[0] == Int(ToInt64(tokens[0]).value)
            && TypeRow(row)[1] == Int(ToInt64(tokens[1]).value)
            && TypeRow(row)[4] == Int(ToInt64(tokens[3]).value)
            && TypeRow(row)[3] == Str(Placeholder))
  {
    assert !IsDigit(Placeholder[0]) && Placeholder[0] != '+' && Placeholder[0] != '-';
    var row := Repair(tokens, Hypercube);
    assert row[0] == tokens[0] && row[1] == tokens[1] && row[4] == tokens[3];
  }

  /** An output made only of comment lines gives a report without rows. */
  lemma OnlyCommentsGiveEmptyReport(lines: seq<string>, op: string, m: Metadata)
    requires forall k :: 0 <= k < |lines| ==> IsComment(lines[k])
    ensures DataRows(lines, op) == []
    ensures BuildReport(DataRows(lines, op), m).Success?
    ensures BuildReport(DataRows(lines, op), m).value == Table(ReportColumns, [])
  {
    CommentsDoNotMatter(lines, op);
    assert NonComments(lines) == [] by {
      NoNonComments(lines);
    }
    ReportRows([], m);
  }

  /** Filtering out the comment lines of an all-comment output leaves nothing. */
  lemma {:induction false} NoNonComments(lines: seq<string>)
    requires forall k :: 0 <= k < |lines| ==> IsComment(lines[k])
    ensures NonComments(lines) == []
  {
    if |lines| > 0 {
      NoNonComments(lines[..|lines| - 1]);
    }
  }

  // ---------------------------------------------------------------------------
  // A worked example: two all_reduce rows

  const FirstRow: seq<string> := ["4", "1", "uint8", "sum", "-1", "12.3", "0.01", "0.02", "0",
                                  "12.1", "0.02", "0.03", "0"]
  const SecondRow: seq<string> := ["8", "2", "uint8", "sum", "-1", "13.0", "0.05", "0.06", "0",
                                   "12.9", "0.06", "0.07", "0"]

  lemma ExampleTokens(row: seq<string>)
    requires row == FirstRow || row == SecondRow
    ensures |row| == 13 && !IsComment(row[0])
    ensures forall j :: 0 <= j < 13 ==> IsToken(row[j]) && IsLine(row[j])
  {
  }

  lemma ExampleTyping(row: seq<string>, size: int, count: int)
    requires (row == FirstRow && size == 4 && count == 1) || (row == SecondRow && size == 8 && count == 2)
    ensures |row| == 13 && RowIsTypable(row)
    ensures ToInt64(row[0]) == Some(size) && ToInt64(row[1]) == Some(count) && ToInt64(row[4]) == Some(-1)
  {
    assert row[0] == FormatInt(size) && row[1] == FormatInt(count) && row[4] == FormatInt(-1);
    ToInt64Format(size);
    ToInt64Format(count);
    ToInt64Format(-1);
  }

  /**
   * The benchmark's standard output read back whole: data rows printed one
   * per newline-terminated line, each laid out with its own column padding,
   * are read back as exactly those rows, in order.
   */
  lemma {:induction false} PrintedRows(rows: seq<seq<string>>, gaps: seq<seq<string>>, op: string)
    requires |gaps| == |rows|
    requires forall k :: 0 <= k < |rows| ==> |rows[k]| == RowWidth && |gaps[k]| == RowWidth + 1
    requires forall k :: 0 <= k < |rows| ==> Separates(rows[k], gaps[k])
    requires forall k, j :: 0 <= k < |rows| && 0 <= j < RowWidth ==> IsToken(rows[k][j]) && IsLine(rows[k][j])
    requires forall k, j :: 0 <= k < |rows| && 0 <= j <= RowWidth ==> IsLine(gaps[k][j])
    requires forall k :: 0 <= k < |rows| ==> !IsComment(rows[k][0])
    ensures DataRows(SplitLines(Terminated(seq(|rows|, k requires 0 <= k < |rows| => Aligned(rows[k], gaps[k])))), op)
         == rows
  {
    var lines := seq(|rows|, k requires 0 <= k < |rows| => Aligned(rows[k], gaps[k]));
    forall k | 0 <= k < |rows|
      ensures IsLine(lines[k])
    {
      AlignedKeepsLines(rows[k], gaps[k]);
    }
    SplitLinesTerminated(lines);
    ParseRendered(rows, gaps, op);
  }

  /** Two printed rows, each padded into columns in any way: an instance of `PrintedRows`. */
  lemma TwoPrintedRows(first: seq<string>, second: seq<string>,
                       pad1: seq<string>, pad2: seq<string>, op: string)
    requires |first| == RowWidth && |second| == RowWidth
    requires !IsComment(first[0]) && !IsComment(second[0])
    requires forall j :: 0 <= j < RowWidth ==> IsToken(first[j]) && IsLine(first[j])
    requires forall j :: 0 <= j < RowWidth ==> IsToken(second[j]) && IsLine(second[j])
    requires Separates(first, pad1) && Separates(second, pad2)
    requires forall j :: 0 <= j <= RowWidth ==> IsLine(pad1[j]) && IsLine(pad2[j])
    ensures DataRows(SplitLines(Terminated([Aligned(first, pad1), Aligned(second, pad2)])), op)
         == [first, second]
  {
    var rows, gaps := [first, second], [pad1, pad2];
    assert seq(|rows|, k requires 0 <= k < |rows| => Aligned(rows[k], gaps[k]))
        == [Aligned(first, pad1), Aligned(second, pad2)];
    PrintedRows(rows, gaps, op);
  }

  /**
   * The benchmark printing the two example rows, one per line and padded
   * into columns in any way, gives back exactly those rows.
   */
  lemma AllReduceRows(first: seq<string>, second: seq<string>, pad1: seq<string>, pad2: seq<string>)
    requires first == FirstRow && second == SecondRow
    requires Separates(first, pad1) && Separates(second, pad2)
    requires forall j :: 0 <= j <= RowWidth ==> IsLine(pad1[j]) && IsLine(pad2[j])
    ensures DataRows(SplitLines(Terminated([Aligned(first, pad1), Aligned(second, pad2)])), "all_reduce")
         == [first, second]
  {
    ExampleTokens(first);
    ExampleTokens(second);
    TwoPrintedRows(first, second, pad1, pad2, "all_reduce");
  }

  /**
   * The example rows type in full: the size column reads 4 then 8, the
   * count column 1 then 2 and the root column -1 on both rows.
   */
  lemma AllReduceTyping(first: seq<string>, second: seq<string>)
    requires first == FirstRow && second == SecondRow
    ensures var typed := TypeTable([first, second]);
      && typed.Success?
      && typed.value[0][0] == Int(4) && typed.value[1][0] == Int(8)
      && typed.value[0][1] == Int(1) && typed.value[1][1] == Int(2)
      && typed.value[0][4] == Int(-1) && typed.value[1][4] == Int(-1)
  {
    ExampleTyping(first, 4, 1);
    ExampleTyping(second, 8, 2);
  }
}
