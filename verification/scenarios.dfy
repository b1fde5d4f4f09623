/**
 * Worked examples of the whole pipeline on a one-table schema: table `T`
 * declares column `id` with pattern `^[0-9]{3}$`, and `T.csv` has the
 * header `id,name`.
 */
module Scenarios {
  import opened Options
  import opened OrderedMaps
  import opened Regex
  import opened Schema
  import opened Counting
  import opened PatternCompiler
  import opened Scanner
  import opened Report

  const IdPattern := "^[0-9]{3}$"

  /** What `^[0-9]{3}$` fully matches: exactly three decimal digits. */
  predicate ThreeDigits(s: string)
  {
    |s| == 3 && forall i :: 0 <= i < 3 ==> '0' <= s[i] <= '9'
  }

  /** An engine that knows the one pattern of the example schema. */
  function SampleEngine(): Engine
  {
    Engine(p => p == IdPattern, (p, s) => p == IdPattern && ThreeDigits(s))
  }

  function SampleSchema(): Document
  {
    Document([Table(Some("T"), [Column(Some("id"), Some(IdPattern))])])
  }

  /** The column patterns of table `T`: `id` with its pattern. */
  function SampleColumnPatterns(): ColumnPatterns
  {
    OrderedMap(["id"], map["id" := IdPattern])
  }

  /** The pattern map the example schema compiles to: table `T` with its column patterns. */
  function SamplePatternMap(): PatternMap
  {
    OrderedMap([Some("T")], map[Some("T") := SampleColumnPatterns()])
  }

  /** `T.csv` with a valid id, an invalid one and a blank one. */
  function SampleFile(): DataFile
  {
    Csv([["id", "name"], ["123", "x"], ["12a", "y"], ["", "z"]])
  }

  /** `T.csv` with a valid id and a `NULL` sentinel. */
  function SentinelFile(): DataFile
  {
    Csv([["id", "name"], ["123", "x"], ["NULL", "y"]])
  }

  /** The single declared column survives compilation. */
  lemma SampleColumns()
    ensures CompileColumns([Column(Some("id"), Some(IdPattern))], SampleEngine()) == SampleColumnPatterns()
  {
    var engine := SampleEngine();
    var cols := [Column(Some("id"), Some(IdPattern))];
    assert Qualifies(cols[0], engine) by { assert "id"[0] == 'i'; assert IdPattern[0] == '^'; }
    var entry := ColumnEntry(engine);
    assert entry(cols[0]) == Some(("id", IdPattern));
    assert cols[..0] == [];
    assert PutAll(cols[..0], entry) == Empty();
    assert PutAll(cols, entry) == Put(Empty(), "id", IdPattern);
  }

  /** The example schema compiles to the single table `T` with the single column `id`. */
  lemma SampleCompiles()
    ensures CompilePatterns(SampleSchema(), SampleEngine()) == SamplePatternMap()
  {
    var engine := SampleEngine();
    var inner := SampleColumnPatterns();
    var tables := SampleSchema().tables;
    SampleColumns();
    assert HasPatterns(tables[0], engine) by { assert "id" in inner.entries; }
    var entry := TableEntry(engine);
    assert entry(tables[0]) == Some((Some("T"), inner));
    assert tables[..0] == [];
    assert PutAll(tables[..0], entry) == Empty();
    assert PutAll(tables, entry) == Put(Empty(), Some("T"), inner);
  }

  /** The sample cells have no surrounding whitespace. */
  lemma SampleStrips()
    ensures Text.Strip("123") == "123" && Text.Strip("12a") == "12a" && Text.Strip("") == ""
    ensures Text.Strip("NULL") == "NULL"
  {
    Text.StripTrimmed("123");
    Text.StripTrimmed("12a");
    Text.StripTrimmed("");
    Text.StripTrimmed("NULL");
  }

  /** The `id` cells of the sample rows, as the scan sees them. */
  lemma SampleCells()
    ensures Cells(SampleFile().records[1..], 0, false) == [Some("123"), Some("12a"), None]
    ensures Cells(SentinelFile().records[1..], 0, true) == [Some("123"), None]
    ensures Cells(SentinelFile().records[1..], 0, false) == [Some("123"), Some("NULL")]
  {
    SampleStrips();
    assert Text.Upper("NULL") == "NULL";
  }

  /** Counting the sample cells: a valid id, an invalid one, and nothing. */
  lemma SampleTallies()
    ensures TallyAll([Some("123"), Some("12a"), None], IdPattern, SampleEngine()) == Counts(2, 1, 1)
    ensures TallyAll([Some("123"), None], IdPattern, SampleEngine()) == Counts(1, 1, 0)
    ensures TallyAll([Some("123"), Some("NULL")], IdPattern, SampleEngine()) == Counts(2, 1, 1)
  {
    var engine := SampleEngine();
    assert ThreeDigits("123");
    assert !ThreeDigits("12a") by { assert "12a"[2] == 'a'; }
    assert !ThreeDigits("NULL");
    var one: seq<Option<string>> := [Some("123")];
    assert one[..0] == [];
    assert TallyAll(one, IdPattern, engine) == Counts(1, 1, 0);
    var two: seq<Option<string>> := [Some("123"), Some("12a")];
    assert two[..1] == one;
    var three: seq<Option<string>> := [Some("123"), Some("12a"), None];
    assert three[..2] == two;
    assert [Some("123"), None][..1] == one;
    assert [Some("123"), Some("NULL")][..1] == one;
  }

  /** `123` matches, `12a` does not, the blank cell is not counted: (2, 1, 1) and a hit rate of one half. */
  lemma SampleScan()
    ensures var cols := SampleColumnPatterns();
            var counts := Scan(SampleFile(), cols, false, SampleEngine()).entries["id"];
            counts == Counts(2, 1, 1) && HitRate(counts) == 0.5
  {
    var cols := SampleColumnPatterns();
    ScanCountsLastHeaderPosition(SampleFile(), cols, false, SampleEngine(), "id", 0);
    SampleCells();
    SampleTallies();
  }

  /** With strict nulls the `NULL` cell is not counted; without them it is a mismatch. */
  lemma SentinelScan()
    ensures var cols := SampleColumnPatterns();
            && Scan(SentinelFile(), cols, true, SampleEngine()).entries["id"] == Counts(1, 1, 0)
            && Scan(SentinelFile(), cols, false, SampleEngine()).entries["id"] == Counts(2, 1, 1)
  {
    var cols := SampleColumnPatterns();
    ScanCountsLastHeaderPosition(SentinelFile(), cols, true, SampleEngine(), "id", 0);
    ScanCountsLastHeaderPosition(SentinelFile(), cols, false, SampleEngine(), "id", 0);
    SampleCells();
    SampleTallies();
  }

  /** The dataset's files: `T.csv` is the sample file and no other table has one. */
  function SampleFiles(t: Option<string>): DataFile
  {
    if t == Some("T") then SampleFile() else Missing
  }

  /** The records of table `T`: the one record of column `id`. */
  lemma SampleTableRecords()
    ensures WellFormed(SamplePatternMap())
    ensures RecordsOf("shop", SamplePatternMap(), SampleFiles, false, SampleEngine(), Some("T")) ==
            [Record("shop", Some("T"), "id", 2, 1, 1, 0.5, IdPattern)]
  {
    var cols := SampleColumnPatterns();
    assert "id" in cols.entries;
    SampleScan();
    var counts := Scan(SampleFile(), cols, false, SampleEngine());
    assert counts.order == ["id"];
  }

  /** The report over the compiled sample pattern map. */
  lemma SampleReportOf()
    ensures WellFormed(SamplePatternMap())
    ensures Report.Report("shop", SamplePatternMap(), SampleFiles, false, SampleEngine()) ==
            [Record("shop", Some("T"), "id", 2, 1, 1, 0.5, IdPattern)]
  {
    SampleTableRecords();
    ReportOneTable("shop", SamplePatternMap(), SampleFiles, false, SampleEngine());
  }

  /** The whole report for the example: one record for `T.id`, with a hit rate of one half. */
  lemma SampleReport()
    ensures Report.Report("shop", CompilePatterns(SampleSchema(), SampleEngine()), SampleFiles, false, SampleEngine()) ==
            [Record("shop", Some("T"), "id", 2, 1, 1, 0.5, IdPattern)]
  {
    SampleCompiles();
    SampleReportOf();
  }
}
