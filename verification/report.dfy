/**
 * The result records the auditor emits: one per column of every table in
 * the pattern map, tables in the map's order and columns in each table's
 * order, each carrying its scan counters and hit rate.
 */
module Report {
  import opened Options
  import opened OrderedMaps
  import opened Regex
  import opened Counting
  import opened PatternCompiler
  import opened Scanner

  datatype Record = Record(
    dataset: string,
    table: Option<string>,
    column: string,
    total: nat,
    matches: nat,
    mismatches: nat,
    hitRate: real,
    pattern: string)

  /** The record of column `c` of table `t`, given the table's column patterns and counters. */
  function MakeRecord(dataset: string, t: Option<string>, c: string, cols: ColumnPatterns, counts: ColumnCountsMap): Record
    requires c in cols.entries && c in counts.entries
  {
    var n := counts.entries[c];
    Record(dataset, t, c, n.total, n.matches, n.mismatches, HitRate(n), cols.entries[c])
  }

  /** The records of table `t` for the columns `names`, in that order. */
  function TableRecords(dataset: string, t: Option<string>, cols: ColumnPatterns, counts: ColumnCountsMap, names: seq<string>)
    : (records: seq<Record>)
    requires forall c :: c in names ==> c in cols.entries && c in counts.entries
    ensures |records| == |names|
    ensures forall i :: 0 <= i < |records| ==>
              records[i].column == names[i] && records[i] == MakeRecord(dataset, t, names[i], cols, counts)
    decreases |names|
  {
    if |names| == 0 then []
    else [MakeRecord(dataset, t, names[0], cols, counts)] + TableRecords(dataset, t, cols, counts, names[1..])
  }

  /** A record is among a table's records exactly when it is the record of one of the given columns. */
  lemma TableRecordsMembers(dataset: string, t: Option<string>, cols: ColumnPatterns, counts: ColumnCountsMap, names: seq<string>)
    requires forall c :: c in names ==> c in cols.entries && c in counts.entries
    ensures forall r :: r in TableRecords(dataset, t, cols, counts, names) ==>
              r.table == t && r.column in names && r == MakeRecord(dataset, t, r.column, cols, counts)
    ensures forall c :: c in names ==> MakeRecord(dataset, t, c, cols, counts) in TableRecords(dataset, t, cols, counts, names)
  {
    var records := TableRecords(dataset, t, cols, counts, names);
    forall c | c in names ensures MakeRecord(dataset, t, c, cols, counts) in records {
      var i :| 0 <= i < |names| && names[i] == c;
      assert records[i] == MakeRecord(dataset, t, c, cols, counts);
    }
  }

  /** The records of the table named `t` in the pattern map: its column patterns scanned against its data file. */
  function RecordsOf(dataset: string, pm: PatternMap, files: Option<string> -> DataFile, strictNulls: bool, engine: Engine,
                     t: Option<string>): seq<Record>
    requires WellFormed(pm)
  {
    if t in pm.entries then
      var counts := Scan(files(t), pm.entries[t], strictNulls, engine);
      TableRecords(dataset, t, pm.entries[t], counts, counts.order)
    else []
  }

  /** The record the auditor must emit for column `c` of table `t`. */
  function Expected(dataset: string, pm: PatternMap, files: Option<string> -> DataFile, strictNulls: bool, engine: Engine,
                    t: Option<string>, c: string): Record
    requires WellFormed(pm) && t in pm.entries && c in pm.entries[t].entries
  {
    MakeRecord(dataset, t, c, pm.entries[t], Scan(files(t), pm.entries[t], strictNulls, engine))
  }

  /** The records of one table are exactly the expected records of its columns. */
  lemma RecordsOfTable(dataset: string, pm: PatternMap, files: Option<string> -> DataFile, strictNulls: bool, engine: Engine,
                       t: Option<string>)
    requires WellFormed(pm) && t in pm.entries
    ensures forall r :: r in RecordsOf(dataset, pm, files, strictNulls, engine, t) ==>
              && r.table == t
              && r.column in pm.entries[t].entries
              && r == Expected(dataset, pm, files, strictNulls, engine, t, r.column)
    ensures forall c :: c in pm.entries[t].entries ==>
              Expected(dataset, pm, files, strictNulls, engine, t, c) in RecordsOf(dataset, pm, files, strictNulls, engine, t)
  {
    var counts := Scan(files(t), pm.entries[t], strictNulls, engine);
    TableRecordsMembers(dataset, t, pm.entries[t], counts, counts.order);
  }

  /** `for t in keys: out.extend(f(t))` */
  function Flatten<T, R>(keys: seq<T>, f: T -> seq<R>): seq<R>
    decreases |keys|
  {
    if |keys| == 0 then [] else f(keys[0]) + Flatten(keys[1..], f)
  }

  /** An item is in the flattened list exactly when it is in the list of one of the keys. */
  lemma {:induction false} FlattenMembers<T, R>(keys: seq<T>, f: T -> seq<R>)
    ensures forall r :: r in Flatten(keys, f) <==> exists t :: t in keys && r in f(t)
    decreases |keys|
  {
    if |keys| > 0 {
      FlattenMembers(keys[1..], f);
      forall r ensures r in Flatten(keys, f) <==> exists t :: t in keys && r in f(t) {
        if t :| t in keys && r in f(t) {
          if t != keys[0] { assert t in keys[1..]; }
        }
      }
    }
  }

  /** Flattening the lists of a single key gives that key's list. */
  lemma FlattenOne<T, R>(keys: seq<T>, f: T -> seq<R>)
    requires |keys| == 1
    ensures Flatten(keys, f) == f(keys[0])
  {
    assert keys[1..] == [];
    assert f(keys[0]) + [] == f(keys[0]);
  }

  /** An item of a key's list is in the flattened list. */
  lemma {:induction false} FlattenContains<T, R>(keys: seq<T>, f: T -> seq<R>, t: T, r: R)
    requires t in keys && r in f(t)
    ensures r in Flatten(keys, f)
    decreases |keys|
  {
    if t != keys[0] {
      assert t in keys[1..];
      FlattenContains(keys[1..], f, t, r);
    }
  }

  /**
   * The main loop of the auditor: for each table of the pattern map, in its
   * order, scan the table's data file and emit one record per column.
   * `files` stands for looking up `<dataset path>/<table name>.csv`.
   */
  function Report(dataset: string, pm: PatternMap, files: Option<string> -> DataFile, strictNulls: bool, engine: Engine)
    : seq<Record>
    requires WellFormed(pm)
  {
    Flatten(pm.order, t => RecordsOf(dataset, pm, files, strictNulls, engine, t))
  }

  /** The number of columns of the tables `keys` in the pattern map. */
  function ColumnCount(pm: PatternMap, keys: seq<Option<string>>): nat
    decreases |keys|
  {
    if |keys| == 0 then 0
    else (if keys[0] in pm.entries then |pm.entries[keys[0]].order| else 0) + ColumnCount(pm, keys[1..])
  }

  /** The tables `keys` contribute one record per column of each. */
  lemma {:induction false} FlattenRecordsLength(dataset: string, pm: PatternMap, files: Option<string> -> DataFile,
                                                strictNulls: bool, engine: Engine, keys: seq<Option<string>>)
    requires WellFormed(pm)
    ensures |Flatten(keys, t => RecordsOf(dataset, pm, files, strictNulls, engine, t))| == ColumnCount(pm, keys)
    decreases |keys|
  {
    if |keys| > 0 {
      FlattenRecordsLength(dataset, pm, files, strictNulls, engine, keys[1..]);
    }
  }

  /** The report has exactly one record per column of every table of the pattern map. */
  lemma ReportLength(dataset: string, pm: PatternMap, files: Option<string> -> DataFile, strictNulls: bool, engine: Engine)
    requires WellFormed(pm)
    ensures |Report(dataset, pm, files, strictNulls, engine)| == ColumnCount(pm, pm.order)
  {
    FlattenRecordsLength(dataset, pm, files, strictNulls, engine, pm.order);
  }

  /** A pattern map with one table reports exactly that table's records. */
  lemma ReportOneTable(dataset: string, pm: PatternMap, files: Option<string> -> DataFile, strictNulls: bool, engine: Engine)
    requires WellFormed(pm) && |pm.order| == 1
    ensures Report(dataset, pm, files, strictNulls, engine) == RecordsOf(dataset, pm, files, strictNulls, engine, pm.order[0])
  {
    FlattenOne(pm.order, t => RecordsOf(dataset, pm, files, strictNulls, engine, t));
  }

  /** Every record belongs to a column of the pattern map and carries that column's pattern and scan counters. */
  lemma ReportSound(dataset: string, pm: PatternMap, files: Option<string> -> DataFile, strictNulls: bool, engine: Engine)
    requires WellFormed(pm)
    ensures forall r :: r in Report(dataset, pm, files, strictNulls, engine) ==>
              && r.table in pm.entries
              && r.column in pm.entries[r.table].entries
              && r == Expected(dataset, pm, files, strictNulls, engine, r.table, r.column)
  {
    var f := t => RecordsOf(dataset, pm, files, strictNulls, engine, t);
    FlattenMembers(pm.order, f);
    forall r | r in Report(dataset, pm, files, strictNulls, engine)
      ensures && r.table in pm.entries && r.column in pm.entries[r.table].entries
              && r == Expected(dataset, pm, files, strictNulls, engine, r.table, r.column)
    {
      var t :| t in pm.order && r in f(t);
      RecordsOfTable(dataset, pm, files, strictNulls, engine, t);
    }
  }

  /** Every column of every table of the pattern map has its record. */
  lemma ReportComplete(dataset: string, pm: PatternMap, files: Option<string> -> DataFile, strictNulls: bool, engine: Engine)
    requires WellFormed(pm)
    ensures forall t, c :: t in pm.entries && c in pm.entries[t].entries ==>
              Expected(dataset, pm, files, strictNulls, engine, t, c) in Report(dataset, pm, files, strictNulls, engine)
  {
    var f := t => RecordsOf(dataset, pm, files, strictNulls, engine, t);
    forall t, c | t in pm.entries && c in pm.entries[t].entries
      ensures Expected(dataset, pm, files, strictNulls, engine, t, c) in Report(dataset, pm, files, strictNulls, engine)
    {
      RecordsOfTable(dataset, pm, files, strictNulls, engine, t);
      FlattenContains(pm.order, f, t, Expected(dataset, pm, files, strictNulls, engine, t, c));
    }
  }

  /**
   * A record's counters are consistent and its hit rate is its share of
   * matches: zero when nothing was counted, and within [0, 1].
   */
  predicate HitRateSound(r: Record) {
    && r.total == r.matches + r.mismatches
    && (r.total == 0 ==> r.hitRate == 0.0)
    && (r.total > 0 ==> r.hitRate * (r.total as real) == r.matches as real)
    && 0.0 <= r.hitRate <= 1.0
  }

  /** The record built from consistent counters has a sound hit rate. */
  lemma RecordHitRate(dataset: string, t: Option<string>, c: string, cols: ColumnPatterns, counts: ColumnCountsMap)
    requires c in cols.entries && c in counts.entries
    requires counts.entries[c].total == counts.entries[c].matches + counts.entries[c].mismatches
    ensures HitRateSound(MakeRecord(dataset, t, c, cols, counts))
  {
    HitRateIsShareOfMatches(counts.entries[c]);
  }

  /** Every record of the report has consistent counters and a sound hit rate. */
  lemma ReportHitRates(dataset: string, pm: PatternMap, files: Option<string> -> DataFile, strictNulls: bool, engine: Engine)
    requires WellFormed(pm)
    ensures forall r :: r in Report(dataset, pm, files, strictNulls, engine) ==> HitRateSound(r)
  {
    ReportSound(dataset, pm, files, strictNulls, engine);
    forall r | r in Report(dataset, pm, files, strictNulls, engine) ensures HitRateSound(r) {
      var cols := pm.entries[r.table];
      var counts := Scan(files(r.table), cols, strictNulls, engine);
      RecordHitRate(dataset, r.table, r.column, cols, counts);
    }
  }
}
