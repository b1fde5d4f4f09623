/**
 * The typed shape of the JSON schema document
 * `{"tables": [{"name": str, "columns": [{"name": str, "pattern": str?}]}]}`.
 * Names are strings or absent; a missing key is `None`. A pattern that is
 * missing or not a string is `None`, as the auditor skips both alike. A
 * missing `tables` or `columns` list is the empty sequence.
 */
module Schema {
  import opened Options

  datatype Column = Column(name: Option<string>, pattern: Option<string>)

  datatype Table = Table(name: Option<string>, columns: seq<Column>)

  datatype Document = Document(tables: seq<Table>)
}
