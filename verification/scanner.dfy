/**
 * `scan_table`: the counters of every declared column of one table, from
 * that table's data file. The file may be missing or empty; a declared
 * column may be missing from its header; a row may be shorter than the
 * header. None of these is an error: the affected counters stay at zero.
 */
module Scanner {
  import opened OrderedMaps
  import opened Regex
  import opened Text
  import opened Nulls
  import opened Counting
  import opened PatternCompiler

  /** A table's data file: absent, or present with its records in file order, the first being the header. */
  datatype DataFile = Missing | Csv(records: seq<Row>)

  /** column name -> counters, in the order of the table's column patterns */
  type ColumnCountsMap = OrderedMap<string, Counts>

  /** `{name: idx for idx, name in enumerate(header)}`: a repeated name keeps its last position. */
  function HeaderIndex(header: seq<string>): (ix: map<string, nat>)
    ensures forall name :: name in ix <==> name in header
    ensures forall name :: name in ix ==>
              && ix[name] < |header|
              && header[ix[name]] == name
              && forall j :: ix[name] < j < |header| ==> header[j] != name
    decreases |header|
  {
    if |header| == 0 then map[]
    else HeaderIndex(header[..|header| - 1])[header[|header| - 1] := |header| - 1]
  }

  /** An entry of `active_cols`: a declared column found in the header. */
  datatype Active = Active(name: string, index: nat, pattern: string)

  /** No two entries are for the same column. */
  predicate DistinctNames(act: seq<Active>)
  {
    forall i, j :: 0 <= i < j < |act| ==> act[i].name != act[j].name
  }

  /** `active_cols`: the columns of `names`, in order, that the header index knows. */
  function ActiveColumns(names: seq<string>, cols: ColumnPatterns, ix: map<string, nat>): (act: seq<Active>)
    requires forall k :: k in names ==> k in cols.entries
    ensures forall a :: a in act ==>
              && a.name in names && a.name in ix
              && a.index == ix[a.name]
              && a.pattern == cols.entries[a.name]
    ensures forall k :: k in names && k in ix ==> Active(k, ix[k], cols.entries[k]) in act
    ensures Distinct(names) ==> DistinctNames(act)
    decreases |names|
  {
    if |names| == 0 then []
    else
      var k := names[0];
      var rest := ActiveColumns(names[1..], cols, ix);
      assert forall k' :: k' in names ==> k' == k || k' in names[1..];
      if k in ix then [Active(k, ix[k], cols.entries[k])] + rest else rest
  }

  /** The counters of declared column `c` with pattern `pattern`. */
  function ColumnResult(file: DataFile, c: string, pattern: string, strictNulls: bool, engine: Engine): Counts
  {
    if file.Csv? && |file.records| > 0 && c in HeaderIndex(file.records[0]) then
      ColumnCounts(file.records[1..], HeaderIndex(file.records[0])[c], pattern, strictNulls, engine)
    else Zero
  }

  /** Every declared column at zero, in declaration order. */
  function ZeroCounts(cols: ColumnPatterns): (counts: ColumnCountsMap)
    requires Valid(cols)
    ensures Valid(counts)
  {
    OrderedMap(cols.order, map c | c in cols.entries :: Zero)
  }

  /** What `scan_table` returns, stated column by column. */
  function Scan(file: DataFile, cols: ColumnPatterns, strictNulls: bool, engine: Engine): (counts: ColumnCountsMap)
    requires Valid(cols)
    ensures Valid(counts)
    // one entry per declared column, in declaration order
    ensures counts.order == cols.order && counts.entries.Keys == cols.entries.Keys
    // every counted value either matched or did not
    ensures forall c :: c in counts.entries ==>
              counts.entries[c].total == counts.entries[c].matches + counts.entries[c].mismatches
    // a missing or empty file leaves every counter at zero
    ensures (file.Missing? || |file.records| == 0) ==> forall c :: c in counts.entries ==> counts.entries[c] == Zero
  {
    OrderedMap(cols.order, map c | c in cols.entries :: ColumnResult(file, c, cols.entries[c], strictNulls, engine))
  }

  /** A declared column that the header does not name keeps zero counters. */
  lemma ScanAbsentColumnZero(file: DataFile, cols: ColumnPatterns, strictNulls: bool, engine: Engine)
    requires Valid(cols)
    requires file.Csv? && |file.records| > 0
    ensures forall c :: c in cols.entries && c !in file.records[0] ==>
              Scan(file, cols, strictNulls, engine).entries[c] == Zero
  {
  }

  /** No column counts more values than there are data rows. */
  lemma ScanTotalBound(file: DataFile, cols: ColumnPatterns, strictNulls: bool, engine: Engine)
    requires Valid(cols)
    requires file.Csv? && |file.records| > 0
    ensures forall c :: c in cols.entries ==>
              Scan(file, cols, strictNulls, engine).entries[c].total <= |file.records| - 1
  {
  }

  /**
   * A declared column that the header names is counted over all data rows,
   * at the LAST header position carrying its name.
   */
  lemma ScanCountsLastHeaderPosition(file: DataFile, cols: ColumnPatterns, strictNulls: bool, engine: Engine, c: string, idx: nat)
    requires Valid(cols)
    requires file.Csv? && |file.records| > 0 && c in cols.entries
    requires idx < |file.records[0]| && file.records[0][idx] == c
    requires forall j :: idx < j < |file.records[0]| ==> file.records[0][j] != c
    ensures Scan(file, cols, strictNulls, engine).entries[c] ==
            ColumnCounts(file.records[1..], idx, cols.entries[c], strictNulls, engine)
  {
    var ix := HeaderIndex(file.records[0]);
    assert c in ix;
    assert ix[c] == idx;
  }

  /** Every active column's counters equal the column-wise scan of `rows`. */
  ghost predicate Tallied(tnm: map<string, Counts>, active: seq<Active>, rows: seq<Row>, strictNulls: bool, engine: Engine)
  {
    forall j :: 0 <= j < |active| ==>
      active[j].name in tnm &&
      tnm[active[j].name] == ColumnCounts(rows, active[j].index, active[j].pattern, strictNulls, engine)
  }

  /** The body of the inner loop of `scan_table`: one cell of one active column. */
  method UpdateCell(stats0: Counts, row: Row, a: Active, strictNulls: bool, engine: Engine) returns (stats: Counts)
    ensures stats == Tally(stats0, CellValue(row, a.index, strictNulls), a.pattern, engine)
  {
    stats := stats0;
    if a.index >= |row| {
      return;   // ragged row: this column is skipped
    }
    var val := Strip(row[a.index]);
    if IsEffectivelyNull(val, strictNulls) {
      return;
    }
    if engine.fullMatch(a.pattern, val) {
      stats := Counts(stats.total + 1, stats.matches + 1, stats.mismatches);
    } else {
      stats := Counts(stats.total + 1, stats.matches, stats.mismatches + 1);
    }
  }

  /** The inner loop of `scan_table`: one row, every active column. */
  method ScanRow(rows: seq<Row>, r: nat, active: seq<Active>, strictNulls: bool, engine: Engine, tnm0: map<string, Counts>)
    returns (tnm: map<string, Counts>)
    requires r < |rows| && DistinctNames(active)
    requires Tallied(tnm0, active, rows[..r], strictNulls, engine)
    ensures Tallied(tnm, active, rows[..r + 1], strictNulls, engine)
  {
    tnm := tnm0;
    var row := rows[r];
    var k := 0;
    while k < |active|
      invariant 0 <= k <= |active|
      invariant forall j :: 0 <= j < |active| ==> active[j].name in tnm
      invariant forall j :: 0 <= j < k ==>
                  tnm[active[j].name] ==
                  Tally(tnm0[active[j].name], CellValue(row, active[j].index, strictNulls), active[j].pattern, engine)
      invariant forall j :: k <= j < |active| ==> tnm[active[j].name] == tnm0[active[j].name]
    {
      var a := active[k];
      var stats := UpdateCell(tnm[a.name], row, a, strictNulls, engine);
      tnm := tnm[a.name := stats];
      k := k + 1;
    }
    forall j | 0 <= j < |active|
      ensures tnm[active[j].name] == ColumnCounts(rows[..r + 1], active[j].index, active[j].pattern, strictNulls, engine)
    {
      ColumnCountsSnoc(rows, r, active[j].index, active[j].pattern, strictNulls, engine);
    }
  }

  /** The outer loop of `scan_table`: every data row, from the first to the last. */
  method ScanRows(rows: seq<Row>, active: seq<Active>, strictNulls: bool, engine: Engine)
    returns (tnm: map<string, Counts>)
    requires DistinctNames(active)
    ensures Tallied(tnm, active, rows, strictNulls, engine)
  {
    tnm := map a | a in active :: a.name := Zero;
    assert rows[..0] == [];
    forall j | 0 <= j < |active|
      ensures active[j].name in tnm
      ensures tnm[active[j].name] == ColumnCounts(rows[..0], active[j].index, active[j].pattern, strictNulls, engine)
    {
      assert active[j] in active;
      assert |Cells(rows[..0], active[j].index, strictNulls)| == 0;
    }
    var r := 0;
    while r < |rows|
      invariant 0 <= r <= |rows|
      invariant Tallied(tnm, active, rows[..r], strictNulls, engine)
    {
      tnm := ScanRow(rows, r, active, strictNulls, engine, tnm);
      r := r + 1;
    }
    assert rows[..r] == rows;
  }

  /** `for cname in tnm: counts[cname] = tuple(tnm[cname])` */
  method Freeze(counts0: ColumnCountsMap, active: seq<Active>, tnm: map<string, Counts>)
    returns (counts: ColumnCountsMap)
    requires Valid(counts0)
    requires forall j :: 0 <= j < |active| ==> active[j].name in tnm && active[j].name in counts0.entries
    ensures counts.order == counts0.order && counts.entries.Keys == counts0.entries.Keys
    ensures forall c :: c in counts.entries ==>
              counts.entries[c] == (if exists j :: 0 <= j < |active| && active[j].name == c then tnm[c] else counts0.entries[c])
  {
    counts := counts0;
    var k := 0;
    while k < |active|
      invariant 0 <= k <= |active|
      invariant Valid(counts) && counts.order == counts0.order && counts.entries.Keys == counts0.entries.Keys
      invariant forall c :: c in counts.entries ==>
                  counts.entries[c] == (if exists j :: 0 <= j < k && active[j].name == c then tnm[c] else counts0.entries[c])
    {
      counts := Put(counts, active[k].name, tnm[active[k].name]);
      k := k + 1;
    }
  }

  /**
   * `scan_table(csv_path, col_patterns, strict_nulls)` as the source runs it:
   * rows in the outer loop, active columns in the inner one, one mutable
   * counter triple per active column, frozen back into the result at the end.
   */
  method ScanTable(file: DataFile, cols: ColumnPatterns, strictNulls: bool, engine: Engine)
    returns (counts: ColumnCountsMap)
    requires Valid(cols)
    ensures counts == Scan(file, cols, strictNulls, engine)
  {
    counts := ZeroCounts(cols);
    if file.Missing? || |file.records| == 0 {
      return;
    }
    var header := file.records[0];
    var ix := HeaderIndex(header);
    var active := ActiveColumns(cols.order, cols, ix);
    if |active| == 0 {
      // no declared column is in the header
      NoActiveColumnIsZero(file, cols, strictNulls, engine, active);
      return;
    }
    var tnm := ScanRows(file.records[1..], active, strictNulls, engine);
    forall j | 0 <= j < |active| ensures active[j].name in counts.entries {
      assert active[j] in active;
    }
    counts := Freeze(counts, active, tnm);
    FrozenIsScan(file, cols, strictNulls, engine, active, tnm, counts);
  }

  /** With no active column, the all-zero counters are the scan's result. */
  lemma NoActiveColumnIsZero(file: DataFile, cols: ColumnPatterns, strictNulls: bool, engine: Engine, active: seq<Active>)
    requires Valid(cols) && file.Csv? && |file.records| > 0
    requires active == ActiveColumns(cols.order, cols, HeaderIndex(file.records[0])) && |active| == 0
    ensures ZeroCounts(cols) == Scan(file, cols, strictNulls, engine)
  {
    var ix := HeaderIndex(file.records[0]);
    var spec := Scan(file, cols, strictNulls, engine);
    forall c | c in cols.entries ensures spec.entries[c] == Zero {
      assert c !in ix;
    }
    assert ZeroCounts(cols).entries == spec.entries;
  }

  /** The frozen counters of the active columns are the scan's result. */
  lemma FrozenIsScan(file: DataFile, cols: ColumnPatterns, strictNulls: bool, engine: Engine,
                     active: seq<Active>, tnm: map<string, Counts>, counts: ColumnCountsMap)
    requires Valid(cols) && file.Csv? && |file.records| > 0
    requires active == ActiveColumns(cols.order, cols, HeaderIndex(file.records[0]))
    requires Tallied(tnm, active, file.records[1..], strictNulls, engine)
    requires counts.order == cols.order && counts.entries.Keys == cols.entries.Keys
    requires forall c :: c in counts.entries ==>
               counts.entries[c] == (if exists j :: 0 <= j < |active| && active[j].name == c then tnm[c] else Zero)
    ensures counts == Scan(file, cols, strictNulls, engine)
  {
    var ix := HeaderIndex(file.records[0]);
    var spec := Scan(file, cols, strictNulls, engine);
    forall c | c in cols.entries ensures counts.entries[c] == spec.entries[c] {
      if c in ix {
        var j :| 0 <= j < |active| && active[j] == Active(c, ix[c], cols.entries[c]);
        assert counts.entries[c] == tnm[c];
      } else {
        forall j | 0 <= j < |active| ensures active[j].name != c {
          assert active[j] in active;
        }
        assert counts.entries[c] == Zero;
      }
    }
    assert counts.entries == spec.entries;
  }
}
