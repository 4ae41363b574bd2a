/**
 * The statement-generation rules of the Postgres operator compiler: which
 * statements it handles, how result columns get their names and types, how
 * the positional parameter types are listed, and how a compiled plan becomes
 * a modify statement or a query statement.
 *
 * The compiler proper (`compile`) and the type conversions are foreign code;
 * they are the function fields of `Foreign`, about which nothing is assumed.
 */
module PgCompiler {
  import opened Wrappers

  /** A parser type descriptor (DataTypeDescriptor), opaque here. */
  datatype SqlType = SqlType(id: nat)

  /** A Postgres wire type (PostgresType), opaque here. */
  datatype PgType = PgType(oid: nat)

  /** A catalog column: its declared name (in the user's preferred case) and its identity. */
  datatype Column = Column(name: string, id: nat)

  /** A simplified select expression: a direct column reference or anything else. */
  datatype SimpleExpression = ColumnExpression(column: Column) | OtherExpression(id: nat)

  /** A select-list entry as the simplifier hands it over. */
  datatype SimpleSelectColumn = SimpleSelectColumn(
    name: string,          // the alias, or the parser's default name
    nameDefaulted: bool,   // true when the user gave no alias
    expression: SimpleExpression,
    sqlType: SqlType)

  datatype PostgresResultColumn = PostgresResultColumn(name: string, pgType: Option<PgType>)

  /** A dynamic parameter placeholder; its type may be unresolved. */
  datatype ValueNode = ValueNode(sqlType: Option<SqlType>)

  /** A parsed statement: data manipulation, or anything else (DDL and the rest). */
  datatype StatementNode = DmlStatement(text: string, id: nat) | OtherStatement(text: string, id: nat)

  /** A root operator of a compiled plan, opaque here. */
  datatype Operator = Operator(id: nat)

  /** What the compiler proper returns: a modify plan, or a query plan with its result columns. */
  datatype CompileOutput =
    | ModifyResult(updatePlan: Operator)
    | QueryResult(resultOperator: Operator, resultColumns: seq<PostgresResultColumn>, offset: int, limit: int)

  /** The foreign functions the generation rules call. */
  datatype Foreign = Foreign(
    compile: StatementNode -> Result<CompileOutput, string>,  // Failure models a thrown StandardException
    fromAIS: Column -> Option<PgType>,
    fromDerby: SqlType -> Option<PgType>)

  /** The generated statement: a modify statement carries no result columns. */
  datatype PostgresStatement =
    | PostgresModifyOperatorStatement(
        statementText: string,
        updatePlan: Operator,
        parameterTypes: Option<seq<Option<PgType>>>)
    | PostgresOperatorStatement(
        resultOperator: Operator,
        columnNames: seq<string>,
        columnTypes: seq<Option<PgType>>,
        parameterTypes: Option<seq<Option<PgType>>>,
        offset: int,
        limit: int)

  /** The calls into foreign code with an effect: whether compile ran, and the types pickEncoder was invoked on, in order. */
  datatype Effects = Effects(compiled: bool, encodersPicked: seq<PgType>)

  /** The result column for one select-list entry, with the name and type defaulting rules. */
  function GetResultColumn(foreign: Foreign, selectColumn: SimpleSelectColumn): (rc: PostgresResultColumn)
    ensures selectColumn.expression.ColumnExpression? && selectColumn.nameDefaulted ==>
      rc.name == selectColumn.expression.column.name
    ensures !selectColumn.nameDefaulted ==> rc.name == selectColumn.name
    ensures selectColumn.expression.OtherExpression? ==> rc.name == selectColumn.name
    ensures selectColumn.expression.ColumnExpression? ==> rc.pgType == foreign.fromAIS(selectColumn.expression.column)
    ensures selectColumn.expression.OtherExpression? ==> rc.pgType == foreign.fromDerby(selectColumn.sqlType)
  {
    match selectColumn.expression
    case ColumnExpression(column) =>
      var name := if selectColumn.nameDefaulted then column.name else selectColumn.name;
      PostgresResultColumn(name, foreign.fromAIS(column))
    case OtherExpression(_) =>
      PostgresResultColumn(selectColumn.name, foreign.fromDerby(selectColumn.sqlType))
  }

  /** The type of one parameter: absent when the node has no type or the conversion yields none. */
  function ParameterType(foreign: Foreign, node: ValueNode): (r: Option<PgType>)
    ensures node.sqlType.None? ==> r.None?
    ensures node.sqlType.Some? ==> r == foreign.fromDerby(node.sqlType.value)
  {
    match node.sqlType
    case None => None
    case Some(t) => foreign.fromDerby(t)
  }

  /** The parameter-type list: absent without parameters, otherwise one entry per parameter, in order. */
  ghost predicate ParameterTypesFor(foreign: Foreign, parameterNodes: Option<seq<ValueNode>>, types: Option<seq<Option<PgType>>>)
  {
    (types.None? <==> parameterNodes.None? || |parameterNodes.value| == 0) &&
    (types.Some? ==>
      |types.value| == |parameterNodes.value| &&
      forall i :: 0 <= i < |types.value| ==> types.value[i] == ParameterType(foreign, parameterNodes.value[i]))
  }

  /** The parallel name and type lists: entry i of each comes from result column i. */
  ghost predicate ColumnListsFor(columns: seq<PostgresResultColumn>, names: seq<string>, types: seq<Option<PgType>>)
  {
    |names| == |columns| && |types| == |columns| &&
    forall i :: 0 <= i < |columns| ==> names[i] == columns[i].name && types[i] == columns[i].pgType
  }

  /** The present entries of a list of optional types, in order. */
  function Present(types: seq<Option<PgType>>): (r: seq<PgType>)
  {
    if types == [] then []
    else
      var last := types[|types| - 1];
      Present(types[..|types| - 1]) + (if last.Some? then [last.value] else [])
  }

  /** Builds the parameter-type list, picking an encoder for every type the conversion yields. */
  method ParameterTypeList(foreign: Foreign, parameterNodes: Option<seq<ValueNode>>)
    returns (parameterTypes: Option<seq<Option<PgType>>>, encodersPicked: seq<PgType>)
    ensures ParameterTypesFor(foreign, parameterNodes, parameterTypes)
    ensures encodersPicked == if parameterTypes.Some? then Present(parameterTypes.value) else []
  {
    parameterTypes := None;
    encodersPicked := [];
    if parameterNodes.Some? && |parameterNodes.value| > 0 {
      var nodes := parameterNodes.value;
      var types: seq<Option<PgType>> := [];
      var i := 0;
      while i < |nodes|
        invariant 0 <= i <= |nodes|
        invariant |types| == i
        invariant forall j :: 0 <= j < i ==> types[j] == ParameterType(foreign, nodes[j])
        invariant encodersPicked == Present(types)
      {
        var pgType: Option<PgType> := None;
        if nodes[i].sqlType.Some? {
          pgType := foreign.fromDerby(nodes[i].sqlType.value);
          if pgType.Some? {
            encodersPicked := encodersPicked + [pgType.value];
          }
        }
        assert (types + [pgType])[..i] == types;
        types := types + [pgType];
        i := i + 1;
      }
      parameterTypes := Some(types);
    }
  }

  /** Splits the result columns into parallel name and type lists. */
  method ColumnLists(columns: seq<PostgresResultColumn>) returns (names: seq<string>, types: seq<Option<PgType>>)
    ensures ColumnListsFor(columns, names, types)
  {
    names := [];
    types := [];
    for i := 0 to |columns|
      invariant |names| == i && |types| == i
      invariant forall j :: 0 <= j < i ==> names[j] == columns[j].name && types[j] == columns[j].pgType
    {
      names := names + [columns[i].name];
      types := types + [columns[i].pgType];
    }
  }

  /**
   * Generates the statement for a parsed statement. Anything but a DML
   * statement yields no statement and compiles nothing; a compile failure
   * propagates; otherwise the plan becomes a modify or a query statement.
   */
  method Generate(foreign: Foreign, stmt: StatementNode, parameterNodes: Option<seq<ValueNode>>)
    returns (r: Result<Option<PostgresStatement>, string>, effects: Effects)
    ensures stmt.OtherStatement? ==> r == Success(None) && effects == Effects(false, [])
    ensures stmt.DmlStatement? ==> effects.compiled
    ensures stmt.DmlStatement? && foreign.compile(stmt).Failure? ==>
      r == Failure(foreign.compile(stmt).error) && effects.encodersPicked == []
    ensures stmt.DmlStatement? && foreign.compile(stmt).Success? ==> r.Success? && r.value.Some?
    ensures r.Success? && r.value.Some? ==>
      stmt.DmlStatement? && foreign.compile(stmt).Success? &&
      var out, generated := foreign.compile(stmt).value, r.value.value;
      ParameterTypesFor(foreign, parameterNodes, generated.parameterTypes) &&
      effects.encodersPicked == (if generated.parameterTypes.Some? then Present(generated.parameterTypes.value) else []) &&
      match out
      case ModifyResult(plan) =>
        generated == PostgresModifyOperatorStatement(stmt.text, plan, generated.parameterTypes)
      case QueryResult(op, columns, offset, limit) =>
        generated.PostgresOperatorStatement? &&
        generated.resultOperator == op && generated.offset == offset && generated.limit == limit &&
        ColumnListsFor(columns, generated.columnNames, generated.columnTypes)
  {
    if !stmt.DmlStatement? {
      return Success(None), Effects(false, []);
    }
    var result := foreign.compile(stmt);
    if result.Failure? {
      return Failure(result.error), Effects(true, []);
    }
    var parameterTypes, encodersPicked := ParameterTypeList(foreign, parameterNodes);
    effects := Effects(true, encodersPicked);
    match result.value
    case ModifyResult(plan) =>
      r := Success(Some(PostgresModifyOperatorStatement(stmt.text, plan, parameterTypes)));
    case QueryResult(op, columns, offset, limit) =>
      var columnNames, columnTypes := ColumnLists(columns);
      r := Success(Some(PostgresOperatorStatement(op, columnNames, columnTypes, parameterTypes, offset, limit)));
  }

  // ---------------------------------------------------------------------------
  // Properties.
  // ---------------------------------------------------------------------------

  /** pickEncoder is called exactly on the present types, each as often as it occurs. */
  lemma {:induction false} PresentExactly(types: seq<Option<PgType>>)
    ensures forall t :: t in Present(types) <==> Some(t) in types
    ensures |Present(types)| == |types| - multiset(types)[None]
  {
    if types != [] {
      var init, last := types[..|types| - 1], types[|types| - 1];
      assert types == init + [last];
      PresentExactly(init);
    }
  }

  /** The parameter-type list is determined: two lists that both fit the parameters are equal. */
  lemma ParameterTypesUnique(foreign: Foreign, parameterNodes: Option<seq<ValueNode>>,
                             a: Option<seq<Option<PgType>>>, b: Option<seq<Option<PgType>>>)
    requires ParameterTypesFor(foreign, parameterNodes, a)
    requires ParameterTypesFor(foreign, parameterNodes, b)
    ensures a == b
  {
    if a.Some? {
      assert a.value == b.value;
    }
  }

  /** An alias is kept; without one, a column reference takes the catalog column's declared name. */
  lemma ResultColumnNaming(foreign: Foreign, column: Column, alias: string, defaultName: string, t: SqlType)
    ensures GetResultColumn(foreign, SimpleSelectColumn(alias, false, ColumnExpression(column), t)).name == alias
    ensures GetResultColumn(foreign, SimpleSelectColumn(defaultName, true, ColumnExpression(column), t)).name == column.name
  {
  }
}
