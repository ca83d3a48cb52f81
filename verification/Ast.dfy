/** Statements (include/mosaicdb/sql_parser.h). */
module Ast {
  import opened Bytes
  import opened Values

  datatype CompOp = EQ | NE | LT | GT | LE | GE
  datatype LogicOp = AND | OR

  datatype Condition = Condition(column: Bytes, op: CompOp, value: Value)

  /** Conditions joined by operators: c0 op0 c1 op1 c2 ... */
  datatype Where = Where(conditions: seq<Condition>, ops: seq<LogicOp>)

  const NO_WHERE: Where := Where([], [])

  predicate WhereOk(w: Where) {
    if w.conditions == [] then w.ops == [] else |w.conditions| == |w.ops| + 1
  }

  datatype Assignment = Assignment(column: Bytes, value: Value)

  predicate ValuesOk(sets: seq<Assignment>) {
    forall i :: 0 <= i < |sets| ==> Canonical(sets[i].value)
  }

  datatype Statement =
    | CreateTable(table: Bytes, columns: seq<ColumnDef>, pk: Bytes)
    | DropTable(table: Bytes, ifExists: bool)
    | Insert(table: Bytes, names: seq<Bytes>, values: seq<Value>)
    | Select(table: Bytes, names: seq<Bytes>, all: bool, filter: Where, orderBy: Bytes, desc: bool, limit: int)
    | Update(table: Bytes, assignments: seq<Assignment>, filter: Where)
    | Delete(table: Bytes, filter: Where)
    | ShowTables
    | Describe(table: Bytes)
}
