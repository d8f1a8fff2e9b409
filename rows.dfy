/**
 * Output rows handed to the table writer, and the part of the table schema
 * declarations the model keeps: column names and primary-key flags.
 */
module Rows {

  /** A cell of an output row. */
  datatype Value = IntV(i: int) | StrV(s: string)

  /** An output row: a dictionary from column name to cell. */
  type Row = map<string, Value>

  /** A column declaration, reduced to whether the column is part of the primary key. */
  datatype ColumnDefinition = ColumnDefinition(primaryKey: bool)

  /** The primary key of a table: the columns flagged `primary_key=True`. */
  function PrimaryKey(columns: map<string, ColumnDefinition>): (key: set<string>)
    ensures key <= columns.Keys
    ensures forall c :: c in key <==> c in columns && columns[c].primaryKey
  {
    set c | c in columns && columns[c].primaryKey
  }
}
