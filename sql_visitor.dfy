/** The visitor that turns a syntax tree back into SQL text. `Render` is the
    visitor's `visit`: the node's own `accept` double dispatch becomes one
    exhaustive match, a case per `visit_X` method. */
module SqlVisitor {
  import opened Wrappers
  import opened SqlText
  import opened SqlAst

  // ---------------------------------------------------------------------
  // the private helpers of the visitor, on already rendered operands

  /** `comparison`: the operands and the operator joined by single spaces
      (`[left, op, right].join(' ')`, see `ComparisonIsJoin`). */
  function Comparison(op: string, left: string, right: string): string {
    left + " " + op + " " + right
  }

  /** `search_condition`: the operands and the operator inside parentheses. */
  function SearchCondition(op: string, left: string, right: string): string {
    "(" + left + " " + op + " " + right + ")"
  }

  /** `arithmetic` hands over to `search_condition`. */
  function Arithmetic(op: string, left: string, right: string): string {
    SearchCondition(op, left, right)
  }

  /** `qualified_join`: left operand, join type, JOIN, right operand and the
      join condition, separated by single spaces. */
  function QualifiedJoin(joinType: string, left: string, right: string, condition: string): string {
    left + " " + joinType + " JOIN " + right + " " + condition
  }

  /** `comparison` is Ruby's `join(' ')` of the three parts: one space
      between each two, no parentheses and no other separator. */
  lemma ComparisonIsJoin(op: string, left: string, right: string)
    ensures Comparison(op, left, right) == Join(" ", [left, op, right])
  {
    var parts := [left, op, right];
    assert parts[1..] == [op, right] && parts[1..][1..] == [right];
    assert Join(" ", parts[1..]) == op + " " + right;
  }

  /** A search condition, and so an arithmetic operation, is the comparison
      form wrapped in exactly one pair of parentheses: the two helpers differ
      in the parentheses only. */
  lemma SearchConditionForm(op: string, left: string, right: string)
    ensures SearchCondition(op, left, right) == "(" + Comparison(op, left, right) + ")"
    ensures Arithmetic(op, left, right) == "(" + Comparison(op, left, right) + ")"
  {
  }

  // ---------------------------------------------------------------------
  // visit and its sequence helpers

  /** `visit`: the node's `accept` calls the `visit_X` method of its kind.
      The kinds rendered by the same shared helper are handled together, the
      helper receiving the word its `visit_X` passes; the other kinds are
      rendered by the family functions below, one case per `visit_X`. */
  function Render(n: Node): string
    decreases n, 3
  {
    match FamilyOf(n)
    case QueryParts => RenderQueryPart(n)
    case JoinParts => RenderJoinPart(n)
    case QualifiedJoins =>
      QualifiedJoin(JoinType(n), Render(n.left), Render(n.right), Render(n.searchCondition))
    case Comparisons => Comparison(ComparisonOperator(n), Render(n.left), Render(n.right))
    case SearchConditions => SearchCondition(Connective(n), Render(n.left), Render(n.right))
    case ArithmeticOperations => Arithmetic(ArithmeticOperator(n), Render(n.left), Render(n.right))
    case Predicates => RenderPredicate(n)
    case Expressions => RenderExpression(n)
    case Literals => RenderLiteral(n)
  }

  function RenderQueryPart(n: Node): string
    requires IsQueryPart(n)
    decreases n, 2
  {
    match n
    case Select(list, fromClause, whereClause, groupByClause, havingClause, orderByClause, limitClause) =>
      var parts := RenderPresent(list) + RenderPresent(fromClause) + RenderPresent(whereClause)
                   + RenderPresent(groupByClause) + RenderPresent(havingClause)
                   + RenderPresent(orderByClause) + RenderPresent(limitClause);
      "SELECT " + Join(" ", parts)
    case Subquery(querySpecification) => "(" + Render(querySpecification) + ")"
    case SelectList(columns, distinct) =>
      var list := Arrayize(columns);
      if distinct then "DISTINCT " + list else list
    case All => "*"
    case FromClause(tables) => "FROM " + Arrayize(tables)
    case WhereClause(searchCondition) => "WHERE " + Render(searchCondition)
    case GroupByClause(columns) => "GROUP BY " + Arrayize(columns)
    case HavingClause(searchCondition) => "HAVING " + Render(searchCondition)
    case OrderBy(sortSpecification) => "ORDER BY " + Arrayize(sortSpecification)
    case OrderClause(columns) => "ORDER BY " + Arrayize(columns)
    case LimitClause(count, offset) =>
      (match offset
       case Some(o) => "LIMIT " + IntToString(count) + " OFFSET " + IntToString(o)
       case None => "LIMIT " + IntToString(count))
    case Ascending(column) => Render(column) + " ASC"
    case Descending(column) => Render(column) + " DESC"
  }

  function RenderJoinPart(n: Node): string
    requires IsJoinPart(n)
    decreases n, 2
  {
    match n
    case CrossJoin(left, right) => Render(left) + " CROSS JOIN " + Render(right)
    case On(searchCondition) => "ON " + Render(searchCondition)
    case Using(columns) => "USING (" + Arrayize(columns) + ")"
  }

  function RenderPredicate(n: Node): string
    requires IsPredicate(n)
    decreases n, 2
  {
    match n
    case Not(value) => "NOT " + Render(value)
    case Exists(tableSubquery) => "EXISTS " + Render(tableSubquery)
    case NotExists(tableSubquery) => "NOT EXISTS " + Render(tableSubquery)
    case InValueList(values) => "(" + Arrayize(values) + ")"
    case Between(left, min, max) =>
      Render(left) + " BETWEEN " + Render(min) + " AND " + Render(max)
    case NotBetween(left, min, max) =>
      Render(left) + " NOT BETWEEN " + Render(min) + " AND " + Render(max)
  }

  function RenderExpression(n: Node): string
    requires IsExpression(n)
    decreases n, 2
  {
    match n
    case UnaryPlus(value) => "+" + Render(value)
    case UnaryMinus(value) => "-" + Render(value)
    case Table(name) => Quote(name)
    case Column(name) => Quote(name)
    case QualifiedColumn(table, column) => Render(table) + "." + Render(column)
    case As(value, column) => Render(value) + " AS " + Render(column)
    case Function(name, arguments) => name + "(" + Join(", ", RenderList(arguments)) + ")"
  }

  function RenderLiteral(n: Node): string
    requires IsLiteral(n)
    decreases n, 2
  {
    match n
    case True => "TRUE"
    case False => "FALSE"
    case Null => "NULL"
    case Integer(number) => IntToString(number)
    case Float(formatted) => formatted
    case ApproximateFloat(mantissa, exponent) => Render(mantissa) + "E" + Render(exponent)
    case String(text) => Quoted(Escape(text))
    case Date(formatted) => "DATE " + Quoted(Escape(formatted))
    case DateTime(formatted) => Quoted(Escape(formatted))
  }

  /** `visit_all`: the renderings of the nodes, one for one and in order. */
  function RenderList(ns: seq<Node>): (r: seq<string>)
    ensures |r| == |ns|
    decreases ns, 0
  {
    if ns == [] then [] else [Render(ns[0])] + RenderList(ns[1..])
  }

  /** `visit_all` renders the nodes one for one, in order. */
  lemma {:induction false} RenderListPointwise(ns: seq<Node>)
    ensures forall i :: 0 <= i < |ns| ==> RenderList(ns)[i] == Render(ns[i])
  {
    if ns != [] {
      RenderListPointwise(ns[1..]);
      forall i | 0 < i < |ns| ensures RenderList(ns)[i] == Render(ns[i]) {
        assert RenderList(ns)[i] == RenderList(ns[1..])[i - 1];
        assert ns[1..][i - 1] == ns[i];
      }
    }
  }

  /** `arrayize`: the renderings joined by a comma and a space. */
  function Arrayize(ns: seq<Node>): string
    decreases ns, 1
  {
    Join(", ", RenderList(ns))
  }

  /** `arrayize` of no nodes is empty, of one node is that node's text, and
      otherwise puts `, ` after the first node's text. */
  lemma ArrayizeRendering(ns: seq<Node>)
    ensures ns == [] ==> Arrayize(ns) == ""
    ensures |ns| == 1 ==> Arrayize(ns) == Render(ns[0])
    ensures |ns| > 1 ==> Arrayize(ns) == Render(ns[0]) + ", " + Arrayize(ns[1..])
  {
    if |ns| > 1 {
      assert RenderList(ns)[1..] == RenderList(ns[1..]);
    }
  }

  /** One optional clause of a Select after `compact` and `visit_all`:
      nothing when it is absent, its rendering when it is present. */
  function RenderPresent(o: Option<Node>): (r: seq<string>)
    decreases o, 1
  {
    match o
    case None => []
    case Some(n) => [Render(n)]
  }

  // ---------------------------------------------------------------------
  // the words each `visit_X` of a binary node passes to its helper

  /** The operator `visit_Equals` ... `visit_NotIn` pass to `comparison`. */
  function ComparisonOperator(n: Node): string
    requires IsComparison(n)
  {
    match n
    case Equals(_, _) => "="
    case NotEquals(_, _) => "<>"
    case Greater(_, _) => ">"
    case Less(_, _) => "<"
    case GreaterOrEquals(_, _) => ">="
    case LessOrEquals(_, _) => "<="
    case Is(_, _) => "IS"
    case IsNot(_, _) => "IS NOT"
    case Like(_, _) => "LIKE"
    case NotLike(_, _) => "NOT LIKE"
    case In(_, _) => "IN"
    case NotIn(_, _) => "NOT IN"
  }

  /** The connective `visit_And` and `visit_Or` pass to `search_condition`. */
  function Connective(n: Node): string
    requires IsSearchCondition(n)
  {
    match n
    case And(_, _) => "AND"
    case Or(_, _) => "OR"
  }

  /** The operator `visit_Add` ... `visit_Divide` pass to `arithmetic`. */
  function ArithmeticOperator(n: Node): string
    requires IsArithmetic(n)
  {
    match n
    case Add(_, _) => "+"
    case Subtract(_, _) => "-"
    case Multiply(_, _) => "*"
    case Divide(_, _) => "/"
  }

  /** The join type `visit_InnerJoin` ... `visit_FullOuterJoin` pass to
      `qualified_join`. */
  function JoinType(n: Node): string
    requires IsQualifiedJoin(n)
  {
    match n
    case InnerJoin(_, _, _) => "INNER"
    case LeftJoin(_, _, _) => "LEFT"
    case LeftOuterJoin(_, _, _) => "LEFT OUTER"
    case RightJoin(_, _, _) => "RIGHT"
    case RightOuterJoin(_, _, _) => "RIGHT OUTER"
    case FullJoin(_, _, _) => "FULL"
    case FullOuterJoin(_, _, _) => "FULL OUTER"
  }

  /** None of the comparison operators holds a parenthesis. */
  lemma ComparisonOperatorPlain(n: Node)
    requires IsComparison(n)
    ensures '(' !in ComparisonOperator(n) && ')' !in ComparisonOperator(n)
  {
  }

  // ---------------------------------------------------------------------
  // binary operators: parenthesised or not

  lemma {:induction false} CountOfSpaced(c: char, left: string, op: string, right: string)
    requires c != ' '
    ensures CountOf(c, left + " " + op + " " + right)
            == CountOf(c, left) + CountOf(c, op) + CountOf(c, right)
  {
    CountOfConcat(c, left, " ");
    CountOfConcat(c, left + " ", op);
    CountOfConcat(c, left + " " + op, " ");
    CountOfConcat(c, left + " " + op + " ", right);
  }

  /** Wrapping the spaced form in parentheses adds one of each. */
  lemma {:induction false} CountOfParenthesised(c: char, left: string, op: string, right: string)
    requires c == '(' || c == ')'
    ensures CountOf(c, "(" + left + " " + op + " " + right + ")")
            == CountOf(c, left) + CountOf(c, op) + CountOf(c, right) + 1
  {
    var inner := left + " " + op + " " + right;
    assert "(" + left + " " + op + " " + right + ")" == "(" + inner + ")";
    CountOfSpaced(c, left, op, right);
    CountOfConcat(c, "(", inner);
    CountOfConcat(c, "(" + inner, ")");
  }

  /** The twelve comparisons come out as the bare operands around the
      operator, with no parentheses of their own: the parentheses in the
      text are exactly those of the operands. */
  lemma ComparisonRendering(n: Node)
    requires IsComparison(n)
    ensures Render(n) == Render(n.left) + " " + ComparisonOperator(n) + " " + Render(n.right)
  {
  }

  lemma {:induction false} ComparisonParentheses(n: Node)
    requires IsComparison(n)
    ensures CountOf('(', Render(n)) == CountOf('(', Render(n.left)) + CountOf('(', Render(n.right))
    ensures CountOf(')', Render(n)) == CountOf(')', Render(n.left)) + CountOf(')', Render(n.right))
  {
    var op, l, r := ComparisonOperator(n), Render(n.left), Render(n.right);
    ComparisonRendering(n);
    ComparisonOperatorPlain(n);
    CountOfSpaced('(', l, op, r);
    CountOfSpaced(')', l, op, r);
  }

  /** AND and OR always come out inside one pair of parentheses of their
      own, whatever their operands are. */
  lemma SearchConditionRendering(n: Node)
    requires IsSearchCondition(n)
    ensures Render(n) == "(" + Render(n.left) + " " + Connective(n) + " " + Render(n.right) + ")"
  {
  }

  lemma {:induction false} SearchConditionParentheses(n: Node)
    requires IsSearchCondition(n)
    ensures CountOf('(', Render(n)) == CountOf('(', Render(n.left)) + CountOf('(', Render(n.right)) + 1
    ensures CountOf(')', Render(n)) == CountOf(')', Render(n.left)) + CountOf(')', Render(n.right)) + 1
  {
    var op, l, r := Connective(n), Render(n.left), Render(n.right);
    SearchConditionRendering(n);
    assert CountOf('(', op) == 0 == CountOf(')', op);
    CountOfParenthesised('(', l, op, r);
    CountOfParenthesised(')', l, op, r);
  }

  /** The four arithmetic operators are parenthesised the same way. */
  lemma ArithmeticRendering(n: Node)
    requires IsArithmetic(n)
    ensures Render(n) == "(" + Render(n.left) + " " + ArithmeticOperator(n) + " " + Render(n.right) + ")"
  {
  }

  lemma {:induction false} ArithmeticParentheses(n: Node)
    requires IsArithmetic(n)
    ensures CountOf('(', Render(n)) == CountOf('(', Render(n.left)) + CountOf('(', Render(n.right)) + 1
    ensures CountOf(')', Render(n)) == CountOf(')', Render(n.left)) + CountOf(')', Render(n.right)) + 1
  {
    var op, l, r := ArithmeticOperator(n), Render(n.left), Render(n.right);
    ArithmeticRendering(n);
    assert CountOf('(', op) == 0 == CountOf(')', op);
    CountOfParenthesised('(', l, op, r);
    CountOfParenthesised(')', l, op, r);
  }

  // ---------------------------------------------------------------------
  // Select: `compact`, `visit_all`, `join(' ')`

  /** Ruby's `compact`: the present values, in order. */
  function Compact(os: seq<Option<Node>>): (r: seq<Node>)
    ensures |r| <= |os|
    ensures forall x :: x in r <==> Some(x) in os
  {
    if os == [] then []
    else (match os[0] case Some(x) => [x] case None => []) + Compact(os[1..])
  }

  /** `compact` keeps a present value and drops an absent one. */
  lemma CompactSingleton(x: Node)
    ensures Compact([Some(x)]) == [x]
    ensures Compact([None]) == []
  {
  }

  /** `compact` works slot by slot: it distributes over concatenation, so it
      keeps the order and the repetitions of the present values. */
  lemma {:induction false} CompactConcat(a: seq<Option<Node>>, b: seq<Option<Node>>)
    ensures Compact(a + b) == Compact(a) + Compact(b)
  {
    if a == [] {
      assert a + b == b;
    } else {
      assert (a + b)[0] == a[0];
      assert (a + b)[1..] == a[1..] + b;
      CompactConcat(a[1..], b);
    }
  }

  /** The seven clause slots of a Select in the order the visitor lists
      them: list, from, where, group by, having, order by, limit. */
  function Clauses(s: Node): (cs: seq<Option<Node>>)
    requires s.Select?
    ensures |cs| == 7 && cs[0] == s.list && cs[6] == s.limitClause
  {
    [s.list, s.fromClause, s.whereClause, s.groupByClause, s.havingClause,
     s.orderByClause, s.limitClause]
  }

  lemma {:induction false} RenderListConcat(a: seq<Node>, b: seq<Node>)
    ensures RenderList(a + b) == RenderList(a) + RenderList(b)
  {
    if a == [] {
      assert a + b == b;
    } else {
      assert (a + b)[0] == a[0];
      assert (a + b)[1..] == a[1..] + b;
      RenderListConcat(a[1..], b);
    }
  }

  /** `compact` then `visit_all` of one more slot appends that slot's text,
      if any. */
  lemma RenderCompactSnoc(os: seq<Option<Node>>, o: Option<Node>)
    ensures RenderList(Compact(os + [o])) == RenderList(Compact(os)) + RenderPresent(o)
  {
    CompactConcat(os, [o]);
    RenderListConcat(Compact(os), Compact([o]));
    if o.Some? {
      CompactSingleton(o.value);
    }
  }

  /** The clause texts a Select joins, as `compact` followed by `visit_all`
      produces them. */
  function ClauseTexts(s: Node): (parts: seq<string>)
    requires s.Select?
    ensures |parts| <= 7
  {
    RenderList(Compact(Clauses(s)))
  }

  /** `compact` then `visit_all` on one slot and on two slots. */
  lemma RenderCompactPair(o0: Option<Node>, o1: Option<Node>)
    ensures RenderList(Compact([o0])) == RenderPresent(o0)
    ensures RenderList(Compact([o0, o1])) == RenderPresent(o0) + RenderPresent(o1)
  {
    if o0.Some? {
      CompactSingleton(o0.value);
    }
    RenderCompactSnoc([o0], o1);
    assert [o0] + [o1] == [o0, o1];
  }

  /** `compact` then `visit_all` of a concatenation of slots. */
  lemma RenderCompactConcat(a: seq<Option<Node>>, b: seq<Option<Node>>)
    ensures RenderList(Compact(a + b)) == RenderList(Compact(a)) + RenderList(Compact(b))
  {
    CompactConcat(a, b);
    RenderListConcat(Compact(a), Compact(b));
  }

  /** `compact` then `visit_all` on four slots. */
  lemma RenderCompactFour(o0: Option<Node>, o1: Option<Node>, o2: Option<Node>, o3: Option<Node>)
    ensures RenderList(Compact([o0, o1, o2, o3]))
            == RenderPresent(o0) + RenderPresent(o1) + RenderPresent(o2) + RenderPresent(o3)
  {
    var a, b := [o0, o1], [o2, o3];
    RenderCompactPair(o0, o1);
    RenderCompactPair(o2, o3);
    RenderCompactConcat(a, b);
    assert a + b == [o0, o1, o2, o3];
    Regroup(RenderPresent(o0), RenderPresent(o1), RenderPresent(o2), RenderPresent(o3));
  }

  lemma Regroup(p0: seq<string>, p1: seq<string>, p2: seq<string>, p3: seq<string>)
    ensures (p0 + p1) + (p2 + p3) == p0 + p1 + p2 + p3
  {
  }

  /** `compact` followed by `visit_all` on the seven clause slots gives the
      rendering of each present clause, slot by slot, in slot order. */
  lemma {:induction false} ClauseTextsPerSlot(s: Node)
    requires s.Select?
    ensures ClauseTexts(s)
            == RenderPresent(s.list) + RenderPresent(s.fromClause) + RenderPresent(s.whereClause)
               + RenderPresent(s.groupByClause) + RenderPresent(s.havingClause)
               + RenderPresent(s.orderByClause) + RenderPresent(s.limitClause)
  {
    var c4 := [s.list, s.fromClause, s.whereClause, s.groupByClause];
    var c5 := c4 + [s.havingClause];
    var c6 := c5 + [s.orderByClause];
    var c7 := c6 + [s.limitClause];
    RenderCompactFour(s.list, s.fromClause, s.whereClause, s.groupByClause);
    RenderCompactSnoc(c4, s.havingClause);
    RenderCompactSnoc(c5, s.orderByClause);
    RenderCompactSnoc(c6, s.limitClause);
    assert Clauses(s) == c7;
  }

  /** A Select is `SELECT ` followed by the renderings of its present
      clauses, in the fixed clause order, joined by single spaces: absent
      clauses contribute neither text nor a separator. */
  lemma {:induction false} SelectRendering(s: Node)
    requires s.Select?
    ensures Render(s) == "SELECT " + Join(" ", ClauseTexts(s))
  {
    ClauseTextsPerSlot(s);
  }

  /** No stray separators: with k > 0 clauses present, a Select is exactly
      `SELECT `, the clause texts and k - 1 single spaces long; with none it
      is `SELECT ` alone. */
  lemma {:induction false} SelectLength(s: Node)
    requires s.Select?
    ensures var parts := ClauseTexts(s);
            |Render(s)| == 7 + TotalLength(parts) + (if parts == [] then 0 else |parts| - 1)
  {
    SelectRendering(s);
    if ClauseTexts(s) != [] {
      JoinLength(" ", ClauseTexts(s));
    }
  }

  // ---------------------------------------------------------------------
  // the other clauses

  /** `DISTINCT ` is put in front of the column list exactly when the list
      is marked distinct; the columns are comma-space separated. */
  lemma SelectListRendering(columns: seq<Node>)
    ensures Render(SelectList(columns, false)) == Arrayize(columns)
    ensures Render(SelectList(columns, true)) == "DISTINCT " + Arrayize(columns)
  {
  }

  /** The DISTINCT mark is never lost: the two lists of the same columns
      render differently. */
  lemma DistinctKept(columns: seq<Node>)
    ensures Render(SelectList(columns, true)) != Render(SelectList(columns, false))
  {
    SelectListRendering(columns);
    assert |Render(SelectList(columns, true))| == |Render(SelectList(columns, false))| + 9;
  }

  /** LIMIT carries an OFFSET part exactly when an offset is given. */
  lemma LimitRendering(count: int, offset: Option<int>)
    ensures offset.None? ==> Render(LimitClause(count, offset)) == "LIMIT " + IntToString(count)
    ensures offset.Some? ==> Render(LimitClause(count, offset))
                             == "LIMIT " + IntToString(count) + " OFFSET " + IntToString(offset.value)
  {
  }

  /** Sort specifications put `ASC` or `DESC` after the column. */
  lemma SortSpecificationRendering(column: Node)
    ensures Render(Ascending(column)) == Render(column) + " ASC"
    ensures Render(Descending(column)) == Render(column) + " DESC"
  {
    assert FamilyOf(Ascending(column)) == QueryParts;
    assert FamilyOf(Descending(column)) == QueryParts;
  }

  /** WHERE, HAVING and ON are their keyword, one space and the condition. */
  lemma ConditionClauseRendering(condition: Node)
    ensures Render(WhereClause(condition)) == "WHERE " + Render(condition)
    ensures Render(HavingClause(condition)) == "HAVING " + Render(condition)
    ensures Render(On(condition)) == "ON " + Render(condition)
  {
  }

  /** FROM and ORDER BY are their keyword, one space and the comma-space
      separated list; both ORDER BY node kinds read the same. */
  lemma ListClauseRendering(ns: seq<Node>)
    ensures Render(FromClause(ns)) == "FROM " + Arrayize(ns)
    ensures Render(OrderBy(ns)) == "ORDER BY " + Arrayize(ns) == Render(OrderClause(ns))
  {
  }

  /** GROUP BY is its keyword, one space and the comma-space separated
      columns. */
  lemma GroupByRendering(columns: seq<Node>)
    ensures Render(GroupByClause(columns)) == "GROUP BY " + Arrayize(columns)
  {
  }

  /** USING puts its column list in parentheses. */
  lemma UsingRendering(columns: seq<Node>)
    ensures Render(Using(columns)) == "USING (" + Arrayize(columns) + ")"
  {
  }

  /** Qualified joins put their fixed type word before JOIN and their
      condition after the right operand; CROSS JOIN has no condition. */
  lemma QualifiedJoinRendering(n: Node)
    requires IsQualifiedJoin(n)
    ensures Render(n) == Render(n.left) + " " + JoinType(n) + " JOIN " + Render(n.right)
                         + " " + Render(n.searchCondition)
  {
  }

  /** Splitting off the join type word between the left operand and the
      rest of a qualified join. */
  lemma JoinShape(l: string, w: string, r: string, c: string)
    ensures l + " " + w + " JOIN " + r + " " + c == (l + " ") + w + (" JOIN " + r + " " + c)
  {
  }

  /** Equal texts with equal ends have equal middles. */
  lemma MiddleCancel(a: string, x: string, y: string, b: string)
    requires a + x + b == a + y + b
    ensures x == y
  {
    var t := a + x + b;
    assert |x| == |y|;
    assert x == t[|a|..|a| + |x|];
    assert y == t[|a|..|a| + |y|];
  }

  /** The join type word is not lost: two qualified joins with the same
      operands and the same condition that render the same text are the
      same join. */
  lemma QualifiedJoinKindRecoverable(n: Node, m: Node)
    requires IsQualifiedJoin(n) && IsQualifiedJoin(m)
    requires n.left == m.left && n.right == m.right && n.searchCondition == m.searchCondition
    requires Render(n) == Render(m)
    ensures n == m
  {
    var l, r, c := Render(n.left), Render(n.right), Render(n.searchCondition);
    QualifiedJoinRendering(n);
    QualifiedJoinRendering(m);
    JoinShape(l, JoinType(n), r, c);
    JoinShape(l, JoinType(m), r, c);
    MiddleCancel(l + " ", JoinType(n), JoinType(m), " JOIN " + r + " " + c);
    JoinTypeDistinct(n, m);
  }

  /** The seven join type words are pairwise different. */
  lemma JoinTypeDistinct(n: Node, m: Node)
    requires IsQualifiedJoin(n) && IsQualifiedJoin(m)
    requires n.left == m.left && n.right == m.right && n.searchCondition == m.searchCondition
    requires JoinType(n) == JoinType(m)
    ensures n == m
  {
    var w := JoinType(n);
    assert |w| <= 5 ==> !m.LeftOuterJoin? && !m.RightOuterJoin? && !m.FullOuterJoin?;
    assert |w| > 5 ==> !m.InnerJoin? && !m.LeftJoin? && !m.RightJoin? && !m.FullJoin?;
    assert w[0] == JoinType(m)[0];
  }

  lemma CrossJoinRendering(left: Node, right: Node)
    ensures Render(CrossJoin(left, right)) == Render(left) + " CROSS JOIN " + Render(right)
  {
  }

  /** A subquery adds exactly one pair of parentheses around its query. */
  lemma SubqueryRendering(q: Node)
    ensures Render(Subquery(q)) == "(" + Render(q) + ")"
  {
  }

  lemma {:induction false} SubqueryParentheses(q: Node)
    ensures var r := Render(Subquery(q));
            |r| == |Render(q)| + 2 && r[0] == '(' && r[|r| - 1] == ')' && r[1..|r| - 1] == Render(q)
    ensures CountOf('(', Render(Subquery(q))) == CountOf('(', Render(q)) + 1
    ensures CountOf(')', Render(Subquery(q))) == CountOf(')', Render(q)) + 1
  {
    var t := Render(q);
    SubqueryRendering(q);
    CountOfConcat('(', "(", t);
    CountOfConcat('(', "(" + t, ")");
    CountOfConcat(')', "(", t);
    CountOfConcat(')', "(" + t, ")");
  }

  // ---------------------------------------------------------------------
  // the other predicates and expressions

  /** NOT is its word and one space before its operand, which is not
      parenthesised. */
  lemma NotRendering(operand: Node)
    ensures Render(Not(operand)) == "NOT " + Render(operand)
  {
  }

  /** EXISTS and NOT EXISTS are a prefix word and one space before their
      operand, which is not parenthesised (a subquery brings its own
      parentheses). */
  lemma PrefixPredicateRendering(operand: Node)
    ensures Render(Exists(operand)) == "EXISTS " + Render(operand)
    ensures Render(NotExists(operand)) == "NOT EXISTS " + Render(operand)
  {
  }

  /** A value list is the comma-space separated values in parentheses. */
  lemma InValueListRendering(values: seq<Node>)
    ensures Render(InValueList(values)) == "(" + Arrayize(values) + ")"
  {
  }

  /** BETWEEN and NOT BETWEEN are not parenthesised; the bounds are
      separated by AND. */
  lemma BetweenRendering(left: Node, min: Node, max: Node)
    ensures Render(Between(left, min, max))
            == Render(left) + " BETWEEN " + Render(min) + " AND " + Render(max)
  {
  }

  lemma NotBetweenRendering(left: Node, min: Node, max: Node)
    ensures Render(NotBetween(left, min, max))
            == Render(left) + " NOT BETWEEN " + Render(min) + " AND " + Render(max)
  {
  }

  /** A sign is put straight before its operand: no space, no parentheses. */
  lemma SignRendering(operand: Node)
    ensures Render(UnaryPlus(operand)) == "+" + Render(operand)
    ensures Render(UnaryMinus(operand)) == "-" + Render(operand)
  {
  }

  /** A qualified column is the table and the column joined by a dot; an
      alias follows its value after ` AS `. */
  lemma ReferenceRendering(first: Node, second: Node)
    ensures Render(QualifiedColumn(first, second)) == Render(first) + "." + Render(second)
    ensures Render(As(first, second)) == Render(first) + " AS " + Render(second)
  {
  }

  /** A function call is its name, unquoted, and its arguments in
      parentheses, separated as by `arrayize`. */
  lemma FunctionRendering(name: string, arguments: seq<Node>)
    ensures Render(Function(name, arguments)) == name + "(" + Arrayize(arguments) + ")"
  {
  }

  // ---------------------------------------------------------------------
  // literals and references

  /** A string literal is its escaped value between single quotes, and
      inside the quotes every quote character comes in a doubled pair, so
      no quote of the value can end the literal early. */
  lemma {:induction false} StringLiteralRendering(s: string)
    ensures var r := Render(String(s));
            |r| == |s| + CountOf('\'', s) + 2 && r[0] == '\'' && r[|r| - 1] == '\''
            && r[1..|r| - 1] == Escape(s) && QuotesPaired(r[1..|r| - 1])
  {
    StringLiteralText(s);
    var t := Escape(s);
    QuotedForm(t);
    EscapeLength(s);
    EscapeQuotesPaired(s);
  }

  lemma StringLiteralText(s: string)
    ensures Render(String(s)) == Quoted(Escape(s))
  {
  }

  /** A DATE literal carries the DATE keyword; a timestamp does not and
      reads exactly like the string literal of its text. */
  lemma DateLiteralRendering(formatted: string)
    ensures Render(Date(formatted)) == "DATE " + Render(String(formatted))
    ensures Render(DateTime(formatted)) == Render(String(formatted))
  {
  }

  /** Tables and columns are rendered the same way, by quoting their name. */
  lemma IdentifierRendering(name: string)
    ensures Render(Table(name)) == Render(Column(name)) == "`" + name + "`"
  {
  }

  /** TRUE, FALSE and NULL are fixed keywords. */
  lemma KeywordLiteralRendering()
    ensures Render(True) == "TRUE" && Render(False) == "FALSE" && Render(Null) == "NULL"
  {
  }

  /** The select-all list is a bare star. */
  lemma AllRendering()
    ensures Render(All) == "*"
  {
  }

  /** Numbers are their text, unquoted: an integer as `Integer#to_s` writes
      it, a float as already formatted, an approximate float as mantissa,
      `E` and exponent. */
  lemma NumberRendering(i: int, formatted: string, mantissa: Node, exponent: Node)
    ensures Render(Integer(i)) == IntToString(i)
    ensures Render(Float(formatted)) == formatted
    ensures Render(ApproximateFloat(mantissa, exponent)) == Render(mantissa) + "E" + Render(exponent)
  {
  }
}
