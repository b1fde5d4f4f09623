/**
 * `compile_patterns`: from the schema to the map
 * table name -> (column name -> pattern), keeping only the columns that
 * carry a usable pattern and only the tables left with at least one such
 * column. A later column of the same name within a table, and a later
 * table of the same name, overwrite the earlier one in place.
 */
module PatternCompiler {
  import opened Options
  import opened Schema
  import opened Regex
  import opened OrderedMaps

  /** column name -> pattern source, for one table */
  type ColumnPatterns = OrderedMap<string, string>

  /** table name -> its column patterns; the table's `name` key may be absent */
  type PatternMap = OrderedMap<Option<string>, ColumnPatterns>

  /** A column is kept when it has a non-empty name and a non-empty pattern that compiles. */
  predicate Qualifies(c: Column, engine: Engine)
  {
    && c.name.Some? && c.name.value != ""
    && c.pattern.Some? && c.pattern.value != ""
    && engine.compiles(c.pattern.value)
  }

  /** The assignment `col_map[cname] = re.compile(pat)` a column performs, if any. */
  function ColumnEntry(engine: Engine): Column -> Option<(string, string)>
  {
    c => if Qualifies(c, engine) then Some((c.name.value, c.pattern.value)) else None
  }

  /** The inner loop of `compile_patterns`: one table's column map. */
  function CompileColumns(cols: seq<Column>, engine: Engine): (m: ColumnPatterns)
    ensures Valid(m)
    ensures forall k :: k in m.entries ==>
              k != "" && m.entries[k] != "" && engine.compiles(m.entries[k])
  {
    PutAllValues(cols, ColumnEntry(engine));
    PutAll(cols, ColumnEntry(engine))
  }

  /** A column name is a key exactly when some column of that name qualifies. */
  lemma CompileColumnsKeys(cols: seq<Column>, engine: Engine)
    ensures forall k :: k in CompileColumns(cols, engine).entries <==>
              exists i :: 0 <= i < |cols| && Qualifies(cols[i], engine) && cols[i].name == Some(k)
  {
    var entry := ColumnEntry(engine);
    PutAllKeys(cols, entry);
    forall k ensures KeyedBefore(cols, |cols|, k, entry) <==>
                     exists i :: 0 <= i < |cols| && Qualifies(cols[i], engine) && cols[i].name == Some(k)
    {
      if KeyedBefore(cols, |cols|, k, entry) {
        var i :| 0 <= i < |cols| && entry(cols[i]).Some? && entry(cols[i]).value.0 == k;
        assert Qualifies(cols[i], engine) && cols[i].name == Some(k);
      }
    }
  }

  /**
   * The last qualifying column of a name decides that name's pattern: no
   * qualifying column after position `i` has the name of `cols[i]`.
   */
  lemma CompileColumnsLastWins(cols: seq<Column>, engine: Engine)
    ensures forall i :: 0 <= i < |cols| && Qualifies(cols[i], engine) && LastOfKey(cols, i, ColumnEntry(engine)) ==>
              cols[i].name.value in CompileColumns(cols, engine).entries &&
              CompileColumns(cols, engine).entries[cols[i].name.value] == cols[i].pattern.value
  {
    PutAllLastWins(cols, ColumnEntry(engine));
  }

  /** Column names are listed in the order of their first qualifying column. */
  lemma CompileColumnsOrder(cols: seq<Column>, engine: Engine)
    ensures InKeyOrder(cols, CompileColumns(cols, engine).order, ColumnEntry(engine))
  {
    PutAllOrder(cols, ColumnEntry(engine));
  }

  /** A table contributes when at least one of its columns qualifies. */
  predicate HasPatterns(t: Table, engine: Engine)
  {
    NonEmpty(CompileColumns(t.columns, engine))
  }

  /** `if col_map:` holds exactly when some column of the table qualifies. */
  lemma HasPatternsIffSomeColumnQualifies(t: Table, engine: Engine)
    ensures HasPatterns(t, engine) <==> exists i :: 0 <= i < |t.columns| && Qualifies(t.columns[i], engine)
  {
    var m := CompileColumns(t.columns, engine);
    CompileColumnsKeys(t.columns, engine);
    if HasPatterns(t, engine) {
      var k :| k in m.entries;
    }
  }

  /** The assignment `compiled[tname] = col_map` a table performs, if any. */
  function TableEntry(engine: Engine): Table -> Option<(Option<string>, ColumnPatterns)>
  {
    t => if HasPatterns(t, engine) then Some((t.name, CompileColumns(t.columns, engine))) else None
  }

  /** Every table of a pattern map holds a valid, non-empty column map. */
  ghost predicate WellFormed(pm: PatternMap)
  {
    && Valid(pm)
    && forall t :: t in pm.entries ==> Valid(pm.entries[t]) && NonEmpty(pm.entries[t])
  }

  /** `compile_patterns(schema)`. */
  function CompilePatterns(schema: Document, engine: Engine): (pm: PatternMap)
    ensures WellFormed(pm)
    // every surviving pattern is non-empty and compiles, under a non-empty column name
    ensures forall t, c :: t in pm.entries && c in pm.entries[t].entries ==>
              c != "" && pm.entries[t].entries[c] != "" && engine.compiles(pm.entries[t].entries[c])
  {
    PutAllValues(schema.tables, TableEntry(engine));
    PutAll(schema.tables, TableEntry(engine))
  }

  /** A table name is a key exactly when some table of that name has a qualifying column. */
  lemma CompilePatternsKeys(schema: Document, engine: Engine)
    ensures forall t :: t in CompilePatterns(schema, engine).entries <==>
              exists i :: 0 <= i < |schema.tables| && HasPatterns(schema.tables[i], engine) &&
                          schema.tables[i].name == t
  {
    var tables := schema.tables;
    var entry := TableEntry(engine);
    PutAllKeys(tables, entry);
    forall t ensures KeyedBefore(tables, |tables|, t, entry) <==>
                     exists i :: 0 <= i < |tables| && HasPatterns(tables[i], engine) && tables[i].name == t
    {
      if KeyedBefore(tables, |tables|, t, entry) {
        var i :| 0 <= i < |tables| && entry(tables[i]).Some? && entry(tables[i]).value.0 == t;
        assert HasPatterns(tables[i], engine) && tables[i].name == t;
      }
    }
  }

  /**
   * The last contributing table of a name decides that name's column map; a
   * later table of the same name with no usable pattern replaces nothing.
   */
  lemma CompilePatternsLastWins(schema: Document, engine: Engine)
    ensures forall i ::
              (0 <= i < |schema.tables| && HasPatterns(schema.tables[i], engine) &&
               LastOfKey(schema.tables, i, TableEntry(engine))) ==>
              schema.tables[i].name in CompilePatterns(schema, engine).entries &&
              CompilePatterns(schema, engine).entries[schema.tables[i].name] ==
                CompileColumns(schema.tables[i].columns, engine)
  {
    PutAllLastWins(schema.tables, TableEntry(engine));
  }

  /** Table names are listed in the order of their first contributing table. */
  lemma CompilePatternsOrder(schema: Document, engine: Engine)
    ensures InKeyOrder(schema.tables, CompilePatterns(schema, engine).order, TableEntry(engine))
  {
    PutAllOrder(schema.tables, TableEntry(engine));
  }
}
