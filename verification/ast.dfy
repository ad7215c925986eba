/** Statements and schemas. */
module Ast {
  import opened Wrappers

  datatype Condition = Condition(column: string, value: string)

  datatype Statement =
    | Insert(table: string, columns: seq<string>, values: seq<string>)
    | Select(table: string, all: bool, columns: seq<string>, where: Option<Condition>)

  /** The storage name and the user columns in file order. */
  datatype Schema = Schema(storage: string, columns: seq<string>)

  /** What schema loading guarantees: at least one column, and none called `id`. */
  predicate SchemaOk(s: Schema) {
    s.columns != [] && "id" !in s.columns
  }
}
