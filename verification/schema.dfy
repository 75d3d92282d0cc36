/**
 * Schema shaping: the raw 13-token rows become a typed table, the run's
 * metadata is broadcast to every row, and the columns are put in the
 * report's fixed order.
 */
module Schema {
  import opened Wrappers
  import opened Text
  import opened Decimal

  /** The columns of the parsed table, in the benchmark's print order. */
  const ParsedColumns: seq<string> := ["size", "count", "type", "redop", "root",
    "ofp_time", "ofp_algbw", "ofp_busbw", "ofp_wrong",
    "ip_time", "ip_algbw", "ip_busbw", "ip_wrong"]

  /** The metadata columns, in the order they are added. */
  const MetaColumns: seq<string> := ["timestamp", "node_id", "iommu", "card_num",
    "op", "device_ids", "p2p"]

  /** The report's final column order. */
  const ReportColumns: seq<string> := ["timestamp", "node_id", "iommu", "card_num",
    "op", "device_ids", "p2p", "size", "count", "type", "redop", "root",
    "ofp_time", "ofp_algbw", "ofp_busbw", "ofp_wrong",
    "ip_time", "ip_algbw", "ip_busbw", "ip_wrong"]

  /** A table cell: an integer, a text value, or the NaN a missing column gets. */
  datatype Cell = Int(i: int) | Str(s: string) | Missing

  /** A table: column names and rows of cells. */
  datatype Table = Table(header: seq<string>, rows: seq<seq<Cell>>) {
    /** Every row has one cell per column. */
    predicate Valid() {
      forall k :: 0 <= k < |rows| ==> |rows[k]| == |header|
    }
  }

  /** Every row extended by the same trailing cells. */
  function AppendCells(rows: seq<seq<Cell>>, cells: seq<Cell>): (r: seq<seq<Cell>>)
    ensures |r| == |rows| && forall k :: 0 <= k < |rows| ==> r[k] == rows[k] + cells
  {
    seq(|rows|, k requires 0 <= k < |rows| => rows[k] + cells)
  }

  /** Every row preceded by the same leading cells. */
  function PrependCells(cells: seq<Cell>, rows: seq<seq<Cell>>): (r: seq<seq<Cell>>)
    ensures |r| == |rows| && forall k :: 0 <= k < |rows| ==> r[k] == cells + rows[k]
  {
    seq(|rows|, k requires 0 <= k < |rows| => cells + rows[k])
  }

  /** Every row's first `n` cells moved to its end. */
  function RotateRows(rows: seq<seq<Cell>>, n: nat): (r: seq<seq<Cell>>)
    requires forall k :: 0 <= k < |rows| ==> n <= |rows[k]|
    ensures |r| == |rows| && forall k :: 0 <= k < |rows| ==> r[k] == rows[k][n..] + rows[k][..n]
  {
    seq(|rows|, k requires 0 <= k < |rows| => rows[k][n..] + rows[k][..n])
  }

  /** No name occurs twice. */
  predicate Distinct(names: seq<string>) {
    forall i, j :: 0 <= i < j < |names| ==> names[i] != names[j]
  }

  // ---------------------------------------------------------------------------
  // Integer typing of size, count and root

  /** The columns `astype(int)` is applied to: size, count and root. */
  predicate IsIntColumn(j: int) {
    j == 0 || j == 1 || j == 4
  }

  /** The failed `astype(int)`: which column, and the token it could not convert. */
  datatype CoercionError = CoercionError(column: string, token: string)

  /** Index of the first row whose column `j` is not a 64-bit integer literal. */
  function FirstBad(rows: seq<seq<string>>, j: nat): (r: Option<nat>)
    requires forall k :: 0 <= k < |rows| ==> j < |rows[k]|
    ensures r.Some? ==> r.value < |rows| && ToInt64(rows[r.value][j]).None?
    ensures r.Some? ==> forall k :: 0 <= k < r.value ==> ToInt64(rows[k][j]).Some?
    ensures r.None? <==> forall k :: 0 <= k < |rows| ==> ToInt64(rows[k][j]).Some?
  {
    if |rows| == 0 then None
    else if ToInt64(rows[0][j]).None? then Some(0)
    else match FirstBad(rows[1..], j)
      case None => None
      case Some(i) => Some(i + 1)
  }

  predicate RowIsTypable(row: seq<string>)
    requires |row| == 13
  {
    forall j :: 0 <= j < 13 && IsIntColumn(j) ==> ToInt64(row[j]).Some?
  }

  /** One typed row: integer cells for size, count and root, text for the rest. */
  function TypeRow(row: seq<string>): (r: seq<Cell>)
    requires |row| == 13 && RowIsTypable(row)
    ensures |r| == 13
  {
    seq(13, j requires 0 <= j < 13 =>
      if IsIntColumn(j) then Int(ToInt64(row[j]).value) else Str(row[j]))
  }

  /**
   * The three `astype(int)` conversions, one whole column after another:
   * the first column holding a bad token fails the run with that column's
   * first bad token; otherwise every row is typed.
   */
  function TypeTable(rows: seq<seq<string>>): (r: Result<seq<seq<Cell>>, CoercionError>)
    requires forall k :: 0 <= k < |rows| ==> |rows[k]| == 13
    ensures r.Success? <==> forall k :: 0 <= k < |rows| ==> RowIsTypable(rows[k])
    ensures r.Success? ==> |r.value| == |rows|
    ensures r.Success? ==> forall k, j :: 0 <= k < |rows| && 0 <= j < 13 ==>
      |r.value[k]| == 13 &&
      r.value[k][j] == (if IsIntColumn(j) then Int(ToInt64(rows[k][j]).value) else Str(rows[k][j]))
  {
    match FirstBad(rows, 0)
    case Some(i) => Failure(CoercionError(ParsedColumns[0], rows[i][0]))
    case None =>
      match FirstBad(rows, 1)
      case Some(i) => Failure(CoercionError(ParsedColumns[1], rows[i][1]))
      case None =>
        match FirstBad(rows, 4)
        case Some(i) => Failure(CoercionError(ParsedColumns[4], rows[i][4]))
        case None =>
          Success(seq(|rows|, k requires 0 <= k < |rows| => TypeRow(rows[k])))
  }

  /**
   * Typing fails fast, column by column: a failure names an integer column
   * and a token of it that does not convert, every earlier integer column
   * converts in full, and every earlier row of the failing column converts.
   */
  lemma TypingFailsFast(rows: seq<seq<string>>)
    requires forall k :: 0 <= k < |rows| ==> |rows[k]| == 13
    requires TypeTable(rows).Failure?
    ensures exists k, j :: (0 <= k < |rows| && 0 <= j < 13 && IsIntColumn(j)
      && TypeTable(rows).error == CoercionError(ParsedColumns[j], rows[k][j])
      && ToInt64(rows[k][j]).None?
      && (forall k' :: 0 <= k' < k ==> ToInt64(rows[k'][j]).Some?)
      && (forall k', j' :: 0 <= k' < |rows| && 0 <= j' < j && IsIntColumn(j') ==> ToInt64(rows[k'][j']).Some?))
  {
    var e := TypeTable(rows).error;
    if FirstBad(rows, 0).Some? {
      var k := FirstBad(rows, 0).value;
      assert e == CoercionError(ParsedColumns[0], rows[k][0]);
    } else if FirstBad(rows, 1).Some? {
      var k := FirstBad(rows, 1).value;
      assert e == CoercionError(ParsedColumns[1], rows[k][1]);
    } else {
      var k := FirstBad(rows, 4).value;
      assert e == CoercionError(ParsedColumns[4], rows[k][4]);
      assert forall k', j' :: 0 <= k' < |rows| && 0 <= j' < 4 && IsIntColumn(j') ==>
        ToInt64(rows[k'][j']).Some?;
    }
  }

  // ---------------------------------------------------------------------------
  // Run metadata

  /** The seven values broadcast to every row. */
  datatype Metadata = Metadata(timestamp: string, nodeId: string, iommu: string,
    cardNum: string, op: string, deviceIds: string, p2p: string)

  function MetaCells(m: Metadata): (r: seq<Cell>)
    ensures |r| == |MetaColumns|
  {
    [Str(m.timestamp), Str(m.nodeId), Str(m.iommu), Str(m.cardNum),
     Str(m.op), Str(m.deviceIds), Str(m.p2p)]
  }

  /** The transport tag: shared memory when peer-to-peer is disabled. */
  function P2PTag(disableP2P: bool): (tag: string)
    ensures tag == "shm" <==> disableP2P
    ensures tag == "p2p" <==> !disableP2P
  {
    if disableP2P then "shm" else "p2p"
  }

  /** `env.get(key, default)`. */
  function EnvGet(env: map<string, string>, key: string, default: string): (v: string)
    ensures key in env ==> v == env[key]
    ensures key !in env ==> v == default
  {
    if key in env then env[key] else default
  }

  /**
   * `str(ids)` for a list of integers, "[0, 1, 2]": inside the brackets, a
   * split on commas gives one field per id, the first its decimal text and
   * each later one a blank and its decimal text.
   */
  function ListRepr(ids: seq<int>): (s: string)
    ensures |s| >= 2 && s[0] == '[' && s[|s| - 1] == ']'
    ensures |ids| == 0 ==> s == "[]"
    ensures |ids| > 0 ==>
      var fields := SplitOn(s[1..|s| - 1], ',');
      && |fields| == |ids|
      && fields[0] == FormatInt(ids[0])
      && (forall k :: 0 < k < |ids| ==> fields[k] == " " + FormatInt(ids[k]))
      && ParseDecimal(fields[0]) == Some(ids[0])
      && forall k :: 0 < k < |ids| ==>
           |fields[k]| > 0 && fields[k][0] == ' ' && ParseDecimal(fields[k][1..]) == Some(ids[k])
  {
    var parts := seq(|ids|, k requires 0 <= k < |ids| => FormatInt(ids[k]));
    var inner := Join(parts, ", ");
    ListFieldsParse(parts, ids);
    assert ("[" + inner + "]")[1..|inner| + 1] == inner;
    "[" + inner + "]"
  }

  /**
   * The `", "`-join of the decimal texts of `ids` splits on commas into the
   * first text and the blank-prefixed others, which parse back to `ids`.
   */
  lemma ListFieldsParse(parts: seq<string>, ids: seq<int>)
    requires |parts| == |ids|
    requires forall k :: 0 <= k < |ids| ==> parts[k] == FormatInt(ids[k])
    ensures |ids| > 0 ==>
      var fields := SplitOn(Join(parts, ", "), ',');
      && |fields| == |ids|
      && fields[0] == parts[0]
      && (forall k :: 0 < k < |ids| ==> fields[k] == " " + parts[k])
      && ParseDecimal(fields[0]) == Some(ids[0])
      && forall k :: 0 < k < |ids| ==>
           |fields[k]| > 0 && fields[k][0] == ' ' && ParseDecimal(fields[k][1..]) == Some(ids[k])
  {
    if |ids| > 0 {
      var padded := PadTail(parts, " ");
      assert [','] + " " == ", ";
      JoinWiderSeparator(parts, ',', " ");
      forall k | 0 <= k < |padded|
        ensures ',' !in padded[k]
      {
        assert forall i :: 0 <= i < |parts[k]| ==> parts[k][i] != ',';
        if k > 0 {
          assert forall i :: 0 <= i < |padded[k]| ==> padded[k][i] == (" " + parts[k])[i];
        }
      }
      SplitOnJoin(padded, ',');
      forall k | 0 <= k < |ids|
        ensures ParseDecimal(parts[k]) == Some(ids[k])
      {
        ParseFormat(ids[k]);
      }
      forall k | 0 < k < |ids|
        ensures padded[k][1..] == parts[k]
      {
        assert padded[k] == " " + parts[k];
      }
    }
  }

  /**
   * The metadata of one run: the date and node identity as given, the IOMMU
   * state and card number from the child's environment ("unknown" when
   * unset), the operation, the device list and the transport tag.
   */
  function RunMetadata(env: map<string, string>, op: string, ids: seq<int>, disableP2P: bool,
                       timestamp: string, nodeId: string): (m: Metadata)
    ensures m.iommu == EnvGet(env, "HAS_IOMMU", "unknown")
    ensures m.cardNum == EnvGet(env, "CARD_NUM", "unknown")
    ensures m.p2p == "shm" <==> disableP2P
    ensures m.p2p == P2PTag(disableP2P) && m.deviceIds == ListRepr(ids)
    ensures m.op == op && m.timestamp == timestamp && m.nodeId == nodeId
  {
    Metadata(timestamp, nodeId, EnvGet(env, "HAS_IOMMU", "unknown"),
             EnvGet(env, "CARD_NUM", "unknown"), op, ListRepr(ids), P2PTag(disableP2P))
  }

  // ---------------------------------------------------------------------------
  // Column assignment and reindexing

  /**
   * `table[name] = v`: every cell of the named column becomes `v`; a name
   * not yet in the table is added as a last column.
   */
  function SetColumn(t: Table, name: string, v: Cell): (r: Table)
    requires t.Valid()
    ensures r.Valid() && |r.rows| == |t.rows|
    ensures name in t.header ==> r.header == t.header
    ensures name !in t.header ==> r.header == t.header + [name]
    ensures forall k, j :: 0 <= k < |r.rows| && 0 <= j < |r.header| ==>
      r.rows[k][j] == if r.header[j] == name then v else t.rows[k][j]
  {
    if name in t.header then
      Table(t.header, seq(|t.rows|, k requires 0 <= k < |t.rows| =>
        seq(|t.header|, j requires 0 <= j < |t.header| =>
          if t.header[j] == name then v else t.rows[k][j])))
    else
      Table(t.header + [name], AppendCells(t.rows, [v]))
  }

  /** Position of the first column named `name`. */
  function IndexOf(header: seq<string>, name: string): (r: Option<nat>)
    ensures r.Some? ==> r.value < |header| && header[r.value] == name
    ensures r.Some? ==> forall i :: 0 <= i < r.value ==> header[i] != name
    ensures r.None? <==> name !in header
  {
    if |header| == 0 then None
    else if header[0] == name then Some(0)
    else match IndexOf(header[1..], name)
      case None => None
      case Some(i) => Some(i + 1)
  }

  /**
   * `table.reindex(columns=order)` on a table whose column names are
   * distinct: the columns are laid out in `order`, a name the table does
   * not have giving a column of `Missing`.
   */
  function Reindex(t: Table, order: seq<string>): (r: Table)
    requires t.Valid() && Distinct(t.header)
    ensures r.Valid() && r.header == order && |r.rows| == |t.rows|
  {
    Table(order, seq(|t.rows|, k requires 0 <= k < |t.rows| =>
      seq(|order|, j requires 0 <= j < |order| =>
        match IndexOf(t.header, order[j])
        case Some(i) => t.rows[k][i]
        case None => Missing)))
  }

  /** Columns assigned one after another, in the order given. */
  function AssignAll(t: Table, names: seq<string>, cells: seq<Cell>): (r: Table)
    requires t.Valid() && |names| == |cells|
    ensures r.Valid() && |r.rows| == |t.rows|
    decreases |names|
  {
    if |names| == 0 then t
    else AssignAll(SetColumn(t, names[0], cells[0]), names[1..], cells[1..])
  }

  /**
   * The seven metadata columns assigned one after another, as the run does:
   * on a table that has none of them yet, they are appended in order, every
   * row getting the same seven cells.
   */
  function Enrich(t: Table, m: Metadata): (r: Table)
    requires t.Valid()
    ensures r.Valid() && |r.rows| == |t.rows|
    ensures Distinct(t.header + MetaColumns) ==>
      r == Table(t.header + MetaColumns, AppendCells(t.rows, MetaCells(m)))
  {
    var r := AssignAll(t, MetaColumns, MetaCells(m));
    if Distinct(t.header + MetaColumns) then (AssignFresh(t, MetaColumns, MetaCells(m)); r) else r
  }

  // ---------------------------------------------------------------------------
  // Properties of the report layout

  lemma {:induction false} IndexOfDistinct(header: seq<string>, i: nat)
    requires Distinct(header) && i < |header|
    ensures IndexOf(header, header[i]) == Some(i)
  {
    if i > 0 {
      assert header[i] == header[1..][i - 1];
      assert header[0] != header[i];
      IndexOfDistinct(header[1..], i - 1);
    }
  }

  /**
   * Reindexing picks every requested column by name: the cells of the
   * column of that name when the table has one, missing cells otherwise.
   */
  lemma ReindexPicksByName(t: Table, order: seq<string>)
    requires t.Valid() && Distinct(t.header)
    ensures forall k, j :: 0 <= k < |t.rows| && 0 <= j < |order| && order[j] !in t.header ==>
      Reindex(t, order).rows[k][j] == Missing
    ensures forall k, i, j :: 0 <= k < |t.rows| && 0 <= i < |t.header| && 0 <= j < |order| && t.header[i] == order[j] ==>
      Reindex(t, order).rows[k][j] == t.rows[k][i]
  {
    forall k, i, j | 0 <= k < |t.rows| && 0 <= i < |t.header| && 0 <= j < |order| && t.header[i] == order[j]
      ensures Reindex(t, order).rows[k][j] == t.rows[k][i]
    {
      IndexOfDistinct(t.header, i);
    }
  }

  lemma DistinctAppend(a: seq<string>, b: seq<string>)
    requires Distinct(a) && Distinct(b)
    requires forall i :: 0 <= i < |b| ==> b[i] !in a
    ensures Distinct(a + b)
  {
    forall i, j | 0 <= i < j < |a + b|
      ensures (a + b)[i] != (a + b)[j]
    {
      if i < |a| && j >= |a| {
        assert b[j - |a|] !in a;
      }
    }
  }

  lemma DistinctFromSuffixes(h: seq<string>)
    requires forall i :: 0 <= i < |h| ==> h[i] !in h[i + 1..]
    ensures Distinct(h)
  {
    forall i, j | 0 <= i < j < |h|
      ensures h[i] != h[j]
    {
      assert h[j] == h[i + 1..][j - i - 1];
    }
  }

  /**
   * The report's column order is the metadata columns, then the parsed ones,
   * twenty in all, and no name is used twice.
   */
  lemma ReportColumnsLayout()
    ensures ReportColumns == MetaColumns + ParsedColumns
    ensures |ReportColumns| == 20
  {
  }

  /** No column name of the enriched table is used twice. */
  lemma ColumnNamesDistinct()
    ensures Distinct(ParsedColumns + MetaColumns)
  {
    ParsedNamesUnique();
    DistinctFromSuffixes(ParsedColumns);
    MetaNamesUnique();
    DistinctFromSuffixes(MetaColumns);
    MetaNamesAreNew();
    DistinctAppend(ParsedColumns, MetaColumns);
  }

  lemma ParsedNamesUnique()
    ensures forall i :: 0 <= i < |ParsedColumns| ==> ParsedColumns[i] !in ParsedColumns[i + 1..]
  {
  }

  lemma MetaNamesUnique()
    ensures forall i :: 0 <= i < |MetaColumns| ==> MetaColumns[i] !in MetaColumns[i + 1..]
  {
  }

  lemma MetaNamesAreNew()
    ensures forall i :: 0 <= i < |MetaColumns| ==> MetaColumns[i] !in ParsedColumns
  {
  }

  /** Assigning columns the table does not have appends them, in order, to every row. */
  lemma {:induction false} AssignFresh(t: Table, names: seq<string>, cells: seq<Cell>)
    requires t.Valid() && |names| == |cells| && Distinct(t.header + names)
    ensures AssignAll(t, names, cells) ==
      Table(t.header + names, AppendCells(t.rows, cells))
    decreases |names|
  {
    if |names| == 0 {
      assert t.header + names == t.header;
      assert forall k :: 0 <= k < |t.rows| ==> t.rows[k] + cells == t.rows[k];
    } else {
      DistinctAppend'(t.header, names);
      var t1 := SetColumn(t, names[0], cells[0]);
      var rows1 := AppendCells(t.rows, [cells[0]]);
      assert t1 == Table(t.header + [names[0]], rows1);
      assert t1.header + names[1..] == t.header + names;
      AssignFresh(t1, names[1..], cells[1..]);
      forall k | 0 <= k < |t.rows|
        ensures rows1[k] + cells[1..] == t.rows[k] + cells
      {
        assert [cells[0]] + cells[1..] == cells;
      }
    }
  }

  /** The first name appended to a table of distinct names is a new one. */
  lemma DistinctAppend'(a: seq<string>, b: seq<string>)
    requires |b| > 0 && Distinct(a + b)
    ensures b[0] !in a
  {
    forall i | 0 <= i < |a|
      ensures a[i] != b[0]
    {
      assert (a + b)[i] == a[i] && (a + b)[|a|] == b[0];
    }
  }

  /** Reindexing to the swapped order of two groups of columns swaps them in every row. */
  lemma ReindexSwap(a: seq<string>, b: seq<string>, rows: seq<seq<Cell>>)
    requires Distinct(a + b)
    requires forall k :: 0 <= k < |rows| ==> |rows[k]| == |a| + |b|
    ensures Reindex(Table(a + b, rows), b + a) ==
      Table(b + a, RotateRows(rows, |a|))
  {
    var h := a + b;
    var r := Reindex(Table(h, rows), b + a);
    var want := RotateRows(rows, |a|);
    forall k | 0 <= k < |rows|
      ensures r.rows[k] == want[k]
    {
      forall j | 0 <= j < |a| + |b|
        ensures r.rows[k][j] == want[k][j]
      {
        ReindexCell(a, b, rows, k, j);
      }
    }
    assert r.rows == want;
  }

  lemma ReindexCell(a: seq<string>, b: seq<string>, rows: seq<seq<Cell>>, k: nat, j: nat)
    requires Distinct(a + b)
    requires forall k :: 0 <= k < |rows| ==> |rows[k]| == |a| + |b|
    requires k < |rows| && j < |a| + |b|
    ensures Reindex(Table(a + b, rows), b + a).rows[k][j] == (rows[k][|a|..] + rows[k][..|a|])[j]
  {
    var h := a + b;
    if j < |b| {
      assert (b + a)[j] == h[|a| + j];
      IndexOfDistinct(h, |a| + j);
    } else {
      assert (b + a)[j] == h[j - |b|];
      IndexOfDistinct(h, j - |b|);
    }
  }

  /** On the parsed table, enrichment appends the metadata to every row. */
  lemma EnrichAppends(t: Table, m: Metadata)
    requires t.Valid() && t.header == ParsedColumns
    ensures Enrich(t, m) == Table(ParsedColumns + MetaColumns,
      AppendCells(t.rows, MetaCells(m)))
  {
    ColumnNamesDistinct();
    AssignFresh(t, MetaColumns, MetaCells(m));
  }

  /** Moving appended cells to the front of every row. */
  lemma SwapAppended(rows: seq<seq<Cell>>, tail: seq<Cell>, n: nat)
    requires forall k :: 0 <= k < |rows| ==> |rows[k]| == n
    ensures RotateRows(AppendCells(rows, tail), n) == PrependCells(tail, rows)
  {
    var wide := AppendCells(rows, tail);
    forall k | 0 <= k < |rows|
      ensures wide[k][n..] + wide[k][..n] == tail + rows[k]
    {
      assert wide[k][n..] == tail && wide[k][..n] == rows[k];
    }
  }

  /** Reindexing parsed-then-metadata rows to the report order puts the metadata first. */
  lemma ReindexToReport(rows: seq<seq<Cell>>, mc: seq<Cell>)
    requires forall k :: 0 <= k < |rows| ==> |rows[k]| == |ParsedColumns|
    requires |mc| == |MetaColumns|
    ensures Distinct(ParsedColumns + MetaColumns)
    ensures Reindex(Table(ParsedColumns + MetaColumns, AppendCells(rows, mc)), ReportColumns) ==
      Table(ReportColumns, PrependCells(mc, rows))
  {
    ColumnNamesDistinct();
    ReportColumnsLayout();
    ReindexSwap(ParsedColumns, MetaColumns, AppendCells(rows, mc));
    SwapAppended(rows, mc, |ParsedColumns|);
  }

  /**
   * The finished table: the report's twenty columns in their fixed order,
   * one row per parsed row, each the run's metadata followed by the parsed
   * row's cells in their original order.
   */
  lemma ReportLayout(t: Table, m: Metadata)
    requires t.Valid() && t.header == ParsedColumns
    ensures Distinct(Enrich(t, m).header)
    ensures Reindex(Enrich(t, m), ReportColumns) == Table(ReportColumns, PrependCells(MetaCells(m), t.rows))
  {
    EnrichAppends(t, m);
    ReindexToReport(t.rows, MetaCells(m));
  }

  // ---------------------------------------------------------------------------
  // The whole shaping step

  /**
   * The report built from the raw rows: typed (or the coercion failure),
   * enriched with the metadata and put in the report's column order.
   */
  function BuildReport(rows: seq<seq<string>>, m: Metadata): (r: Result<Table, CoercionError>)
    requires forall k :: 0 <= k < |rows| ==> |rows[k]| == 13
    ensures r.Success? <==> TypeTable(rows).Success?
    ensures r.Failure? ==> r.error == TypeTable(rows).error
    ensures r.Success? ==> r.value == Table(ReportColumns, PrependCells(MetaCells(m), TypeTable(rows).value))
  {
    var typed :- TypeTable(rows);
    var t := Table(ParsedColumns, typed);
    ReportLayout(t, m);
    Success(Reindex(Enrich(t, m), ReportColumns))
  }

  /**
   * Every row of a built report holds twenty cells: the same seven metadata
   * cells, then the typed cells of the raw row it comes from, in order.
   */
  lemma ReportRows(rows: seq<seq<string>>, m: Metadata)
    requires forall k :: 0 <= k < |rows| ==> |rows[k]| == 13
    requires BuildReport(rows, m).Success?
    ensures var t := BuildReport(rows, m).value;
      forall k :: 0 <= k < |rows| ==>
        |t.rows[k]| == 20 && t.rows[k][..7] == MetaCells(m) && t.rows[k][7..] == TypeTable(rows).value[k]
  {
    var typed := TypeTable(rows).value;
    var r := BuildReport(rows, m).value;
    forall k | 0 <= k < |rows|
      ensures |r.rows[k]| == 20 && r.rows[k][..7] == MetaCells(m) && r.rows[k][7..] == typed[k]
    {
      assert r.rows[k] == MetaCells(m) + typed[k];
    }
  }
}
