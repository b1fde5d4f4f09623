/**
 * The per-column counters of a table scan and the fold that fills them:
 * a cell is skipped when its row is too short or its stripped value is
 * null; otherwise it adds one to `total` and one to exactly one of
 * `matches` and `mismatches`, as its stripped value fully matches the
 * column's pattern or not.
 */
module Counting {
  import opened Options
  import opened Text
  import opened Nulls
  import opened Regex

  /** `(total_non_empty, matches, mismatches)` */
  datatype Counts = Counts(total: nat, matches: nat, mismatches: nat)

  const Zero: Counts := Counts(0, 0, 0)

  /** One already-split CSV record. */
  type Row = seq<string>

  /** Column `idx` of `row` holds a value that is counted: the row is long enough and the stripped cell is not null. */
  predicate Counted(row: Row, idx: nat, strictNulls: bool)
  {
    idx < |row| && !IsEffectivelyNull(Strip(row[idx]), strictNulls)
  }

  /** The value of column `idx` that is counted, if any. */
  function CellValue(row: Row, idx: nat, strictNulls: bool): Option<string>
  {
    if Counted(row, idx, strictNulls) then Some(Strip(row[idx])) else None
  }

  /** Column `idx` of `row` is counted and its stripped value fully matches `pattern`. */
  predicate Matched(row: Row, idx: nat, pattern: string, strictNulls: bool, engine: Engine)
  {
    Counted(row, idx, strictNulls) && engine.fullMatch(pattern, Strip(row[idx]))
  }

  /** The counters after one more cell value. */
  function Tally(c: Counts, v: Option<string>, pattern: string, engine: Engine): Counts
  {
    match v
    case None => c
    case Some(s) =>
      if engine.fullMatch(pattern, s) then Counts(c.total + 1, c.matches + 1, c.mismatches)
      else Counts(c.total + 1, c.matches, c.mismatches + 1)
  }

  /** Column `idx` of every row, as the fold sees it. */
  function Cells(rows: seq<Row>, idx: nat, strictNulls: bool): (vs: seq<Option<string>>)
    ensures |vs| == |rows|
    ensures forall i :: 0 <= i < |rows| ==> vs[i] == CellValue(rows[i], idx, strictNulls)
  {
    seq(|rows|, i requires 0 <= i < |rows| => CellValue(rows[i], idx, strictNulls))
  }

  /** The counters after the cell values `vs`, taken from the first to the last. */
  function TallyAll(vs: seq<Option<string>>, pattern: string, engine: Engine): (c: Counts)
    ensures c.total == c.matches + c.mismatches
    ensures c.total <= |vs|
    decreases |vs|
  {
    if |vs| == 0 then Zero
    else Tally(TallyAll(vs[..|vs| - 1], pattern, engine), vs[|vs| - 1], pattern, engine)
  }

  /** The counters of column `idx` after scanning `rows`. */
  function ColumnCounts(rows: seq<Row>, idx: nat, pattern: string, strictNulls: bool, engine: Engine): (c: Counts)
    ensures c.total == c.matches + c.mismatches
    ensures c.total <= |rows|
  {
    TallyAll(Cells(rows, idx, strictNulls), pattern, engine)
  }

  /** Scanning one more row is one more step of the fold. */
  lemma ColumnCountsSnoc(rows: seq<Row>, r: nat, idx: nat, pattern: string, strictNulls: bool, engine: Engine)
    requires r < |rows|
    ensures ColumnCounts(rows[..r + 1], idx, pattern, strictNulls, engine) ==
            Tally(ColumnCounts(rows[..r], idx, pattern, strictNulls, engine), CellValue(rows[r], idx, strictNulls), pattern, engine)
  {
    var vs := Cells(rows[..r + 1], idx, strictNulls);
    assert vs[..r] == Cells(rows[..r], idx, strictNulls);
    assert vs[r] == CellValue(rows[r], idx, strictNulls);
  }

  /** Positions of the values that are present. */
  ghost function PresentAt(vs: seq<Option<string>>): set<int>
  {
    set i | 0 <= i < |vs| && vs[i].Some?
  }

  /** Positions of the values that are present and fully match `pattern`. */
  ghost function MatchingAt(vs: seq<Option<string>>, pattern: string, engine: Engine): set<int>
  {
    set i | 0 <= i < |vs| && vs[i].Some? && engine.fullMatch(pattern, vs[i].value)
  }

  /** The present positions of `vs` are those of its prefix, plus the last one if present. */
  lemma PresentAtSnoc(vs: seq<Option<string>>)
    requires |vs| > 0
    ensures |vs| - 1 !in PresentAt(vs[..|vs| - 1])
    ensures PresentAt(vs) == PresentAt(vs[..|vs| - 1]) + (if vs[|vs| - 1].Some? then {|vs| - 1} else {})
  {
    var n := |vs| - 1;
    forall i ensures i in PresentAt(vs) <==> i in PresentAt(vs[..n]) + (if vs[n].Some? then {n} else {}) {
      if 0 <= i < n { assert vs[..n][i] == vs[i]; }
    }
  }

  /** The matching positions of `vs` are those of its prefix, plus the last one if it matches. */
  lemma MatchingAtSnoc(vs: seq<Option<string>>, pattern: string, engine: Engine)
    requires |vs| > 0
    ensures |vs| - 1 !in MatchingAt(vs[..|vs| - 1], pattern, engine)
    ensures MatchingAt(vs, pattern, engine) ==
            MatchingAt(vs[..|vs| - 1], pattern, engine) +
            (if vs[|vs| - 1].Some? && engine.fullMatch(pattern, vs[|vs| - 1].value) then {|vs| - 1} else {})
  {
    var n := |vs| - 1;
    var lastM: set<int> := if vs[n].Some? && engine.fullMatch(pattern, vs[n].value) then {n} else {};
    forall i ensures i in MatchingAt(vs, pattern, engine) <==> i in MatchingAt(vs[..n], pattern, engine) + lastM {
      if 0 <= i < n { assert vs[..n][i] == vs[i]; }
    }
  }

  /** The fold counts every present value, and among them exactly the matching ones. */
  lemma {:induction false} TallyAllCharacterized(vs: seq<Option<string>>, pattern: string, engine: Engine)
    ensures TallyAll(vs, pattern, engine).total == |PresentAt(vs)|
    ensures TallyAll(vs, pattern, engine).matches == |MatchingAt(vs, pattern, engine)|
    decreases |vs|
  {
    if |vs| == 0 {
      assert PresentAt(vs) == {};
      assert MatchingAt(vs, pattern, engine) == {};
    } else {
      TallyAllCharacterized(vs[..|vs| - 1], pattern, engine);
      PresentAtSnoc(vs);
      MatchingAtSnoc(vs, pattern, engine);
    }
  }

  /** Positions of the rows whose cell in column `idx` is counted. */
  ghost function CountedRows(rows: seq<Row>, idx: nat, strictNulls: bool): set<int>
  {
    set i | 0 <= i < |rows| && Counted(rows[i], idx, strictNulls)
  }

  /** Positions of the rows whose cell in column `idx` is counted and matches. */
  ghost function MatchedRows(rows: seq<Row>, idx: nat, pattern: string, strictNulls: bool, engine: Engine): set<int>
  {
    set i | 0 <= i < |rows| && Matched(rows[i], idx, pattern, strictNulls, engine)
  }

  /** A row is counted exactly where its cell value is present. */
  lemma CountedRowsArePresent(rows: seq<Row>, idx: nat, strictNulls: bool)
    ensures CountedRows(rows, idx, strictNulls) == PresentAt(Cells(rows, idx, strictNulls))
  {
    var vs := Cells(rows, idx, strictNulls);
    forall i ensures i in CountedRows(rows, idx, strictNulls) <==> i in PresentAt(vs) {
      if 0 <= i < |rows| { assert vs[i] == CellValue(rows[i], idx, strictNulls); }
    }
  }

  /** A row is matched exactly where its cell value is present and matches. */
  lemma MatchedRowsAreMatching(rows: seq<Row>, idx: nat, pattern: string, strictNulls: bool, engine: Engine)
    ensures MatchedRows(rows, idx, pattern, strictNulls, engine) == MatchingAt(Cells(rows, idx, strictNulls), pattern, engine)
  {
    var vs := Cells(rows, idx, strictNulls);
    forall i ensures i in MatchedRows(rows, idx, pattern, strictNulls, engine) <==> i in MatchingAt(vs, pattern, engine) {
      if 0 <= i < |rows| { assert vs[i] == CellValue(rows[i], idx, strictNulls); }
    }
  }

  /**
   * The scan counts exactly the rows whose cell is counted, and among them
   * exactly the ones that match; every other counted row is a mismatch.
   */
  lemma ColumnCountsCharacterized(rows: seq<Row>, idx: nat, pattern: string, strictNulls: bool, engine: Engine)
    ensures ColumnCounts(rows, idx, pattern, strictNulls, engine).total == |CountedRows(rows, idx, strictNulls)|
    ensures ColumnCounts(rows, idx, pattern, strictNulls, engine).matches == |MatchedRows(rows, idx, pattern, strictNulls, engine)|
    ensures ColumnCounts(rows, idx, pattern, strictNulls, engine).mismatches ==
            |CountedRows(rows, idx, strictNulls) - MatchedRows(rows, idx, pattern, strictNulls, engine)|
  {
    TallyAllCharacterized(Cells(rows, idx, strictNulls), pattern, engine);
    CountedRowsArePresent(rows, idx, strictNulls);
    MatchedRowsAreMatching(rows, idx, pattern, strictNulls, engine);
    var counted := CountedRows(rows, idx, strictNulls);
    var matched := MatchedRows(rows, idx, pattern, strictNulls, engine);
    assert matched <= counted;
    assert counted == (counted - matched) + matched;
  }

  /** Componentwise sum of counters. */
  function Add(a: Counts, b: Counts): Counts
  {
    Counts(a.total + b.total, a.matches + b.matches, a.mismatches + b.mismatches)
  }

  /** One more value lands on the second of two summed counters. */
  lemma TallyAdd(x: Counts, y: Counts, v: Option<string>, pattern: string, engine: Engine)
    ensures Tally(Add(x, y), v, pattern, engine) == Add(x, Tally(y, v, pattern, engine))
  {
  }

  /** Folding `a` and then `b` adds up the counters of folding each alone. */
  lemma {:induction false} TallyAllAppend(a: seq<Option<string>>, b: seq<Option<string>>, pattern: string, engine: Engine)
    ensures TallyAll(a + b, pattern, engine) == Add(TallyAll(a, pattern, engine), TallyAll(b, pattern, engine))
    decreases |b|
  {
    if |b| == 0 {
      assert a + b == a;
    } else {
      var n := |b| - 1;
      var ab := a + b;
      assert ab[..|ab| - 1] == a + b[..n];
      assert ab[|ab| - 1] == b[n];
      TallyAllAppend(a, b[..n], pattern, engine);
      TallyAdd(TallyAll(a, pattern, engine), TallyAll(b[..n], pattern, engine), b[n], pattern, engine);
    }
  }

  /** Scanning `a` and then `b` adds up the counters of scanning each alone. */
  lemma ColumnCountsAppend(a: seq<Row>, b: seq<Row>, idx: nat, pattern: string, strictNulls: bool, engine: Engine)
    ensures ColumnCounts(a + b, idx, pattern, strictNulls, engine) ==
            Add(ColumnCounts(a, idx, pattern, strictNulls, engine), ColumnCounts(b, idx, pattern, strictNulls, engine))
  {
    var ca, cb, cab := Cells(a, idx, strictNulls), Cells(b, idx, strictNulls), Cells(a + b, idx, strictNulls);
    assert cab == ca + cb by {
      forall i | 0 <= i < |a + b| ensures cab[i] == (ca + cb)[i] {
        if i < |a| { assert (a + b)[i] == a[i]; } else { assert (a + b)[i] == b[i - |a|]; }
      }
    }
    TallyAllAppend(Cells(a, idx, strictNulls), Cells(b, idx, strictNulls), pattern, engine);
  }

  /** The counters do not depend on the order of two blocks of rows. */
  lemma ColumnCountsSwap(a: seq<Row>, b: seq<Row>, idx: nat, pattern: string, strictNulls: bool, engine: Engine)
    ensures ColumnCounts(a + b, idx, pattern, strictNulls, engine) == ColumnCounts(b + a, idx, pattern, strictNulls, engine)
  {
    ColumnCountsAppend(a, b, idx, pattern, strictNulls, engine);
    ColumnCountsAppend(b, a, idx, pattern, strictNulls, engine);
  }

  /** A row that is too short, or whose cell is null once stripped, changes nothing wherever it stands. */
  lemma SkippedRowNoEffect(a: seq<Row>, row: Row, b: seq<Row>, idx: nat, pattern: string, strictNulls: bool, engine: Engine)
    requires idx >= |row| || IsEffectivelyNull(Strip(row[idx]), strictNulls)
    ensures ColumnCounts(a + [row] + b, idx, pattern, strictNulls, engine) == ColumnCounts(a + b, idx, pattern, strictNulls, engine)
  {
    ColumnCountsAppend(a + [row], b, idx, pattern, strictNulls, engine);
    ColumnCountsAppend(a, [row], idx, pattern, strictNulls, engine);
    ColumnCountsAppend(a, b, idx, pattern, strictNulls, engine);
    assert Cells([row], idx, strictNulls) == [None];
  }

  /** A counted cell adds one to `total` and one to exactly one of `matches` and `mismatches`. */
  lemma CountedRowEffect(rows: seq<Row>, row: Row, idx: nat, pattern: string, strictNulls: bool, engine: Engine)
    requires idx < |row| && !IsEffectivelyNull(Strip(row[idx]), strictNulls)
    ensures var before := ColumnCounts(rows, idx, pattern, strictNulls, engine);
            var after := ColumnCounts(rows + [row], idx, pattern, strictNulls, engine);
            && after.total == before.total + 1
            && (engine.fullMatch(pattern, Strip(row[idx])) ==>
                  after.matches == before.matches + 1 && after.mismatches == before.mismatches)
            && (!engine.fullMatch(pattern, Strip(row[idx])) ==>
                  after.matches == before.matches && after.mismatches == before.mismatches + 1)
  {
    ColumnCountsAppend(rows, [row], idx, pattern, strictNulls, engine);
    assert Cells([row], idx, strictNulls) == [Some(Strip(row[idx]))];
  }

  /** `(matches / total) if total > 0 else 0.0`, computed exactly. */
  function HitRate(c: Counts): real
  {
    if c.total > 0 then (c.matches as real) / (c.total as real) else 0.0
  }

  /** The hit rate is zero without values, else the share of matches, so it lies in [0, 1]. */
  lemma HitRateIsShareOfMatches(c: Counts)
    ensures c.total == 0 ==> HitRate(c) == 0.0
    ensures c.total > 0 ==> HitRate(c) * (c.total as real) == c.matches as real
    ensures c.matches <= c.total ==> 0.0 <= HitRate(c) <= 1.0
  {
  }
}
