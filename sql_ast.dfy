/** The syntax tree the visitor renders: one constructor per node class the
    visitor has a `visit_X` method for. The tree is built elsewhere (by the
    parser) and is only read here. */
module SqlAst {
  import opened Wrappers

  datatype Node =
    // query shape and clauses
    | Select(list: Option<Node>, fromClause: Option<Node>, whereClause: Option<Node>,
             groupByClause: Option<Node>, havingClause: Option<Node>,
             orderByClause: Option<Node>, limitClause: Option<Node>)
    | Subquery(querySpecification: Node)
    | SelectList(columns: seq<Node>, distinct: bool)
    | All
    | FromClause(tables: seq<Node>)
    | WhereClause(searchCondition: Node)
    | GroupByClause(columns: seq<Node>)
    | HavingClause(searchCondition: Node)
    | OrderBy(sortSpecification: seq<Node>)
    | OrderClause(columns: seq<Node>)
      /** `count` and `offset` are plain integers, not nodes. */
    | LimitClause(count: int, offset: Option<int>)
    | Ascending(column: Node)
    | Descending(column: Node)
    // joins and their conditions
    | CrossJoin(left: Node, right: Node)
    | InnerJoin(left: Node, right: Node, searchCondition: Node)
    | LeftJoin(left: Node, right: Node, searchCondition: Node)
    | LeftOuterJoin(left: Node, right: Node, searchCondition: Node)
    | RightJoin(left: Node, right: Node, searchCondition: Node)
    | RightOuterJoin(left: Node, right: Node, searchCondition: Node)
    | FullJoin(left: Node, right: Node, searchCondition: Node)
    | FullOuterJoin(left: Node, right: Node, searchCondition: Node)
    | On(searchCondition: Node)
    | Using(columns: seq<Node>)
    // boolean connectives and predicates
    | Or(left: Node, right: Node)
    | And(left: Node, right: Node)
    | Not(value: Node)
    | Exists(tableSubquery: Node)
    | NotExists(tableSubquery: Node)
    | Equals(left: Node, right: Node)
    | NotEquals(left: Node, right: Node)
    | Greater(left: Node, right: Node)
    | Less(left: Node, right: Node)
    | GreaterOrEquals(left: Node, right: Node)
    | LessOrEquals(left: Node, right: Node)
    | Is(left: Node, right: Node)
    | IsNot(left: Node, right: Node)
    | Like(left: Node, right: Node)
    | NotLike(left: Node, right: Node)
    | In(left: Node, right: Node)
    | NotIn(left: Node, right: Node)
    | InValueList(values: seq<Node>)
    | Between(left: Node, min: Node, max: Node)
    | NotBetween(left: Node, min: Node, max: Node)
    // arithmetic
    | Add(left: Node, right: Node)
    | Subtract(left: Node, right: Node)
    | Multiply(left: Node, right: Node)
    | Divide(left: Node, right: Node)
    | UnaryPlus(value: Node)
    | UnaryMinus(value: Node)
    // references
    | Table(name: string)
    | Column(name: string)
    | QualifiedColumn(table: Node, column: Node)
    | As(value: Node, column: Node)
    | Function(name: string, arguments: seq<Node>)
    // literals
    | True
    | False
    | Null
    | Integer(number: int)
      /** The text `Float#to_s` gives for the value. */
    | Float(formatted: string)
    | ApproximateFloat(mantissa: Node, exponent: Node)
    | String(text: string)
      /** The date as `YYYY-MM-DD`, as `strftime` formats it. */
    | Date(formatted: string)
      /** The timestamp as `YYYY-MM-DD HH:MM:SS`, as `strftime` formats it. */
    | DateTime(formatted: string)

  // The node families. Four of them (qualified joins, comparisons, search
  // conditions, arithmetic) hold the kinds whose `visit_X` hands over to one
  // shared helper of the visitor with a fixed word per kind. The other five
  // are only a grouping for dispatch: their kinds have templates of their
  // own.

  /** The SELECT statement, its list, its clauses and sort specifications. */
  predicate IsQueryPart(n: Node) {
    || n.Select? || n.Subquery? || n.SelectList? || n.All? || n.FromClause?
    || n.WhereClause? || n.GroupByClause? || n.HavingClause? || n.OrderBy?
    || n.OrderClause? || n.LimitClause? || n.Ascending? || n.Descending?
  }

  /** CROSS JOIN and the ON / USING join conditions. */
  predicate IsJoinPart(n: Node) {
    n.CrossJoin? || n.On? || n.Using?
  }

  /** The seven joins rendered through `qualified_join`. */
  predicate IsQualifiedJoin(n: Node) {
    || n.InnerJoin? || n.LeftJoin? || n.LeftOuterJoin? || n.RightJoin?
    || n.RightOuterJoin? || n.FullJoin? || n.FullOuterJoin?
  }

  /** The twelve binary predicates rendered through `comparison`. */
  predicate IsComparison(n: Node) {
    || n.Equals? || n.NotEquals? || n.Greater? || n.Less?
    || n.GreaterOrEquals? || n.LessOrEquals? || n.Is? || n.IsNot?
    || n.Like? || n.NotLike? || n.In? || n.NotIn?
  }

  /** AND and OR, rendered through `search_condition`. */
  predicate IsSearchCondition(n: Node) {
    n.And? || n.Or?
  }

  /** The four arithmetic operators, rendered through `arithmetic`. */
  predicate IsArithmetic(n: Node) {
    n.Add? || n.Subtract? || n.Multiply? || n.Divide?
  }

  /** The other predicates: NOT, EXISTS, value lists and BETWEEN. */
  predicate IsPredicate(n: Node) {
    || n.Not? || n.Exists? || n.NotExists? || n.InValueList?
    || n.Between? || n.NotBetween?
  }

  /** Unary signs and references to tables, columns and functions. */
  predicate IsExpression(n: Node) {
    || n.UnaryPlus? || n.UnaryMinus? || n.Table? || n.Column?
    || n.QualifiedColumn? || n.As? || n.Function?
  }

  /** The literals. */
  predicate IsLiteral(n: Node) {
    || n.True? || n.False? || n.Null? || n.Integer? || n.Float?
    || n.ApproximateFloat? || n.String? || n.Date? || n.DateTime?
  }

  datatype Family =
    | QueryParts | JoinParts | QualifiedJoins | Comparisons | SearchConditions
    | ArithmeticOperations | Predicates | Expressions | Literals

  /** The family of a node: every node kind is in exactly one family. */
  function FamilyOf(n: Node): (f: Family)
    ensures f == QueryParts <==> IsQueryPart(n)
    ensures f == JoinParts <==> IsJoinPart(n)
    ensures f == QualifiedJoins <==> IsQualifiedJoin(n)
    ensures f == Comparisons <==> IsComparison(n)
    ensures f == SearchConditions <==> IsSearchCondition(n)
    ensures f == ArithmeticOperations <==> IsArithmetic(n)
    ensures f == Predicates <==> IsPredicate(n)
    ensures f == Expressions <==> IsExpression(n)
    ensures f == Literals <==> IsLiteral(n)
  {
    if IsQueryPart(n) then QueryParts
    else if IsJoinPart(n) then JoinParts
    else if IsQualifiedJoin(n) then QualifiedJoins
    else if IsComparison(n) then Comparisons
    else if IsSearchCondition(n) then SearchConditions
    else if IsArithmetic(n) then ArithmeticOperations
    else if IsPredicate(n) then Predicates
    else if IsExpression(n) then Expressions
    else Literals
  }
}
