/**
 * The output parser: the benchmark's standard output, line by line, becomes
 * the report's raw rows of 13 tokens.
 */
module Parser {
  import opened Wrappers
  import opened Text

  /** The operation whose benchmark prints one column short. */
  const Hypercube: string := "hypercube"

  /** The placeholder the repair inserts where the `redop` column is missing. */
  const Placeholder: string := "na."

  /** Number of columns of a data row. */
  const RowWidth: nat := 13

  /** A line whose first byte is `#`: a header or diagnostic, never data. */
  predicate IsComment(line: string) {
    |line| > 0 && line[0] == '#'
  }

  /** Hypercube rows lack one column: a 12-token row gets the placeholder at index 3. */
  function Repair(tokens: seq<string>, op: string): (r: seq<string>)
    ensures op == Hypercube && |tokens| == 12 ==>
      |r| == 13 && r[3] == Placeholder && r[..3] + r[4..] == tokens
    ensures !(op == Hypercube && |tokens| == 12) ==> r == tokens
  {
    if op == Hypercube && |tokens| == 12 then tokens[..3] + [Placeholder] + tokens[3..]
    else tokens
  }

  /** The data row one line yields, if any. */
  function RowOf(line: string, op: string): (r: Option<seq<string>>)
    ensures r.Some? ==> !IsComment(line) && |r.value| == RowWidth
  {
    if IsComment(line) then None
    else
      var values := Repair(Split(line), op);
      if |values| == RowWidth then Some(values) else None
  }

  function RowSeq(r: Option<seq<string>>): seq<seq<string>>
  {
    match r
    case Some(row) => [row]
    case None => []
  }

  /** The rows the report holds after reading `lines` in order. */
  function DataRows(lines: seq<string>, op: string): (rows: seq<seq<string>>)
    ensures |rows| <= |lines|
    ensures forall k :: 0 <= k < |rows| ==> |rows[k]| == RowWidth
  {
    if |lines| == 0 then []
    else DataRows(lines[..|lines| - 1], op) + RowSeq(RowOf(lines[|lines| - 1], op))
  }

  /**
   * Reads the benchmark's standard output: comment lines are skipped, every
   * other line is split on whitespace, hypercube rows are repaired, and rows
   * of exactly 13 tokens are appended to the report.
   */
  method ParseOutput(stdout: string, op: string) returns (report: seq<seq<string>>)
    ensures report == DataRows(SplitLines(stdout), op)
    ensures |report| <= |SplitLines(stdout)|
    ensures forall k :: 0 <= k < |report| ==> |report[k]| == RowWidth
  {
    var lines := SplitLines(stdout);
    report := [];
    var i := 0;
    while i < |lines|
      invariant 0 <= i <= |lines|
      invariant report == DataRows(lines[..i], op)
    {
      var line := lines[i];
      assert lines[..i + 1][..i] == lines[..i];
      if IsComment(line) {
        i := i + 1;
        continue;
      }
      var values := Split(line);
      if op == Hypercube {
        if |values| == 12 {
          values := values[..3] + [Placeholder] + values[3..];
        }
      }
      if |values| == RowWidth {
        report := report + [values];
      }
      i := i + 1;
    }
    assert lines[..i] == lines;
  }

  // ---------------------------------------------------------------------------
  // Properties of the parser

  /**
   * A line contributes a row exactly when it is not a comment and its token
   * count is 13, or 12 for the hypercube operation.
   */
  lemma RowOfCases(line: string, op: string)
    ensures var t := Split(line);
      RowOf(line, op).Some? <==>
        !IsComment(line) && (|t| == 13 || (op == Hypercube && |t| == 12))
    ensures var t := Split(line);
      !IsComment(line) && |t| == 13 ==> RowOf(line, op) == Some(t)
    ensures var t := Split(line);
      !IsComment(line) && op == Hypercube && |t| == 12 ==>
        RowOf(line, op) == Some(t[..3] + [Placeholder] + t[3..])
  {
  }

  /** A comment line never yields a row, whatever follows the `#`. */
  lemma CommentYieldsNothing(text: string, op: string)
    ensures RowOf("#" + text, op) == None
  {
    assert IsComment("#" + text);
  }

  function NonComments(lines: seq<string>): (r: seq<string>)
    ensures |r| <= |lines|
    ensures forall k :: 0 <= k < |r| ==> !IsComment(r[k])
  {
    if |lines| == 0 then []
    else
      var last := lines[|lines| - 1];
      NonComments(lines[..|lines| - 1]) + (if IsComment(last) then [] else [last])
  }

  /** Dropping every comment line leaves the report unchanged. */
  lemma {:induction false} CommentsDoNotMatter(lines: seq<string>, op: string)
    ensures DataRows(NonComments(lines), op) == DataRows(lines, op)
  {
    if |lines| > 0 {
      var init, last := lines[..|lines| - 1], lines[|lines| - 1];
      CommentsDoNotMatter(init, op);
      assert DataRows(lines, op) == DataRows(init, op) + RowSeq(RowOf(last, op));
      if IsComment(last) {
        assert NonComments(lines) == NonComments(init);
      } else {
        var nc := NonComments(init) + [last];
        assert NonComments(lines) == nc;
        assert nc[..|nc| - 1] == NonComments(init);
        assert DataRows(nc, op) == DataRows(NonComments(init), op) + RowSeq(RowOf(last, op));
      }
    }
  }

  /** The report has at most as many rows as the output has non-comment lines. */
  lemma RowCountBound(lines: seq<string>, op: string)
    ensures |DataRows(lines, op)| <= |NonComments(lines)|
  {
    CommentsDoNotMatter(lines, op);
  }

  /** Indices of the lines that yield a row, in increasing order. */
  function Sources(lines: seq<string>, op: string): (idx: seq<nat>)
    ensures |idx| == |DataRows(lines, op)|
    ensures forall k :: 0 <= k < |idx| ==> idx[k] < |lines|
    ensures forall k, l :: 0 <= k < l < |idx| ==> idx[k] < idx[l]
  {
    if |lines| == 0 then []
    else
      var n := |lines| - 1;
      Sources(lines[..n], op) + (if RowOf(lines[n], op).Some? then [n] else [])
  }

  /** Row `k` of the report is what line `Sources(lines, op)[k]` yields. */
  lemma {:induction false} SourcesYieldRows(lines: seq<string>, op: string)
    ensures forall k :: 0 <= k < |Sources(lines, op)| ==>
      RowOf(lines[Sources(lines, op)[k]], op) == Some(DataRows(lines, op)[k])
  {
    if |lines| > 0 {
      var n := |lines| - 1;
      var init := lines[..n];
      SourcesYieldRows(init, op);
      var rows0, idx0 := DataRows(init, op), Sources(init, op);
      var rows, idx := DataRows(lines, op), Sources(lines, op);
      assert rows == rows0 + RowSeq(RowOf(lines[n], op));
      assert idx == idx0 + (if RowOf(lines[n], op).Some? then [n] else []);
      forall k | 0 <= k < |idx|
        ensures RowOf(lines[idx[k]], op) == Some(rows[k])
      {
        if k < |idx0| {
          assert idx[k] == idx0[k] && rows[k] == rows0[k];
          assert RowOf(init[idx0[k]], op) == Some(rows0[k]);
          assert lines[idx0[k]] == init[idx0[k]];
        } else {
          assert RowOf(lines[n], op).Some?;
          assert idx == idx0 + [n] && rows == rows0 + [RowOf(lines[n], op).value];
        }
      }
    }
  }

  /** A line whose index is not among the sources yields no row. */
  lemma {:induction false} OtherLinesYieldNothing(lines: seq<string>, op: string)
    ensures forall i :: 0 <= i < |lines| && i !in Sources(lines, op) ==> RowOf(lines[i], op) == None
  {
    if |lines| > 0 {
      var n := |lines| - 1;
      var init := lines[..n];
      OtherLinesYieldNothing(init, op);
      var idx0, idx := Sources(init, op), Sources(lines, op);
      assert idx0 <= idx;
      forall i | 0 <= i < |lines| && i !in idx
        ensures RowOf(lines[i], op) == None
      {
        if i < n {
          assert i !in idx0 && lines[i] == init[i];
        }
      }
    }
  }

  /**
   * The report's rows are the rows of the non-comment lines that qualify,
   * in the order the benchmark printed them, none skipped and none repeated:
   * row `k` comes from line `idx[k]`, the indices increase, and every other
   * line yields nothing.
   */
  lemma RowsFollowOutputOrder(lines: seq<string>, op: string)
    ensures var rows, idx := DataRows(lines, op), Sources(lines, op);
      && |idx| == |rows|
      && (forall k :: 0 <= k < |idx| ==> idx[k] < |lines|)
      && (forall k, l :: 0 <= k < l < |idx| ==> idx[k] < idx[l])
      && (forall k :: 0 <= k < |idx| ==> RowOf(lines[idx[k]], op) == Some(rows[k]))
      && (forall i :: 0 <= i < |lines| && i !in idx ==> RowOf(lines[i], op) == None)
  {
    SourcesYieldRows(lines, op);
    OtherLinesYieldNothing(lines, op);
  }

  /** A row of the report is never a comment line's. */
  lemma RowsComeFromDataLines(lines: seq<string>, op: string, k: nat)
    requires k < |DataRows(lines, op)|
    ensures var i := Sources(lines, op)[k];
      i < |lines| && !IsComment(lines[i]) && RowOf(lines[i], op) == Some(DataRows(lines, op)[k])
  {
    RowsFollowOutputOrder(lines, op);
  }

  /**
   * Rows printed one per line, their tokens laid out with any separating
   * whitespace (leading blanks, column padding, trailing blanks), parse back
   * to exactly those rows for every operation: 13-token rows are never
   * repaired.
   */
  lemma {:induction false} ParseRendered(rows: seq<seq<string>>, gaps: seq<seq<string>>, op: string)
    requires |gaps| == |rows|
    requires forall k :: 0 <= k < |rows| ==> |rows[k]| == RowWidth && |gaps[k]| == RowWidth + 1
    requires forall k :: 0 <= k < |rows| ==> Separates(rows[k], gaps[k])
    requires forall k, j :: 0 <= k < |rows| && 0 <= j < RowWidth ==> IsToken(rows[k][j])
    requires forall k :: 0 <= k < |rows| ==> !IsComment(rows[k][0])
    ensures DataRows(seq(|rows|, k requires 0 <= k < |rows| => Aligned(rows[k], gaps[k])), op) == rows
  {
    if |rows| > 0 {
      var n := |rows| - 1;
      var lines := seq(|rows|, k requires 0 <= k < |rows| => Aligned(rows[k], gaps[k]));
      assert lines[..n] == seq(n, k requires 0 <= k < n => Aligned(rows[..n][k], gaps[..n][k]));
      ParseRendered(rows[..n], gaps[..n], op);
      AlignedRow(rows[n], gaps[n], op);
      assert rows[..n] + [rows[n]] == rows;
    }
  }

  /** One laid-out data line yields exactly its row. */
  lemma AlignedRow(row: seq<string>, gaps: seq<string>, op: string)
    requires |row| == RowWidth && Separates(row, gaps)
    requires forall j :: 0 <= j < RowWidth ==> IsToken(row[j])
    requires !IsComment(row[0])
    ensures RowOf(Aligned(row, gaps), op) == Some(row)
  {
    SplitAligned(row, gaps);
    AlignedStart(row, gaps);
  }
}
