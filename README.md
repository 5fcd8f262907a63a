# SQL visitor of sql-parser, modelled in Dafny

The Ruby library sql-parser parses SQL into a syntax tree and renders the
tree back into SQL text. The renderer is `SQLParser::SQLVisitor`: `visit`
sends a node its `accept` message, the node calls the visitor's `visit_X`
method for its class, and that method builds the node's text out of fixed
keywords and the texts of its children. Four private helpers are shared by
several methods: `comparison`, `search_condition` (and `arithmetic`, which
hands over to it), and `qualified_join`. Two work on plain text: `quote`
wraps identifiers in backticks and `escape` doubles single quotes. Two work
on lists of nodes: `visit_all` renders each node, and `arrayize` renders a
list through `visit_all` and joins the texts with `, `.

This project models the visitor as pure functions over a syntax-tree
datatype and proves what its output looks like.

- `wrappers.dfy`: `Option`, used for the nil children of a SELECT and for a
  LIMIT without OFFSET.
- `sql_text.dfy`: the text-level helpers. It has quoting, escaping and its
  inverse, Ruby's `Array#join` and `Integer#to_s`, and occurrence counting.
- `sql_ast.dfy`: one constructor per node class the visitor has a `visit_X`
  method for. It also groups the kinds into nine families for dispatch. In
  four of them (qualified joins, comparisons, AND/OR, arithmetic) every kind
  goes through one shared helper of the visitor. The other five only group
  kinds that have templates of their own.
- `sql_visitor.dfy`: `Render` (`visit`) and the lemmas about what it
  produces for every node kind.
- `sql_lexer.dfy`: readers for the pieces of text the visitor writes, namely
  quoted identifiers, single-quoted literals and `Integer#to_s` numbers. Each
  has a round-trip lemma: reading what the visitor wrote gives back what it
  rendered.
- `sql_reader.dfy`: a reader for chains of AND, OR and arithmetic, and one
  for the LIMIT clause. The chains are built over backtick-free columns,
  integers and strings only. TRUE, FALSE, NULL, floats, dates, qualified
  columns and function calls are outside this fragment. Their round-trip
  lemmas show that the text of such a tree determines the tree. This is the
  point of parenthesising these operators unconditionally.
- `sql_ambiguity.dfy`: the other side. Comparisons and the operands of a
  sign or of NOT are not parenthesised, and backticks in names are not
  escaped. Most lemmas there name two different trees that render to the
  same text. `SignOverArithmetic` is the contrast: there the parentheses of
  the arithmetic keep the two trees apart.
- `sql_examples.dfy`: three representative renderings: LIMIT with and
  without OFFSET, a SELECT DISTINCT and an INNER JOIN.

`Render` does what `accept` does: it selects the rendering of the node's
kind. The kinds that share a helper are handled by one case each. The word
the kind's `visit_X` passes to the helper comes from a table
(`ComparisonOperator`, `Connective`, `ArithmeticOperator`, `JoinType`).

## Model

| member | source | states |
|---|---|---|
| SqlText.Quote | lib/sql-parser/sql_visitor.rb:288-290 | `quote`; its form is stated by `QuoteForm` |
| SqlText.Quoted | lib/sql-parser/sql_visitor.rb:254-264 | the `'%s'` template; its form is stated by `QuotedForm` |
| SqlText.Escape | lib/sql-parser/sql_visitor.rb:292-294 | `escape`; stated by the `Escape*` lemmas and `UnescapeEscape` |
| SqlText.Join | lib/sql-parser/sql_visitor.rb:312-314 | Ruby's `Array#join`; stated by `JoinLength` and `JoinAppend` |
| SqlText.NatToString | lib/sql-parser/sql_visitor.rb:274-276 | the digits of `Integer#to_s`; stated by `NatToStringDigits` and `DecimalValueOfDigits` |
| SqlText.IntToString | lib/sql-parser/sql_visitor.rb:274-276 | `Integer#to_s`; stated by `IntToStringForm` and `IntegerRoundTrip` |
| SqlVisitor.Comparison | lib/sql-parser/sql_visitor.rb:300-302 | `comparison`; stated by `ComparisonIsJoin` |
| SqlVisitor.SearchCondition | lib/sql-parser/sql_visitor.rb:304-306 | `search_condition`; stated by `SearchConditionForm` |
| SqlVisitor.Arithmetic | lib/sql-parser/sql_visitor.rb:296-298 | `arithmetic`; stated by `SearchConditionForm` |
| SqlVisitor.QualifiedJoin | lib/sql-parser/sql_visitor.rb:316-318 | `qualified_join`; stated by `QualifiedJoinRendering` and `QualifiedJoinKindRecoverable` |
| SqlVisitor.Render | lib/sql-parser/sql_visitor.rb:3-5 | `visit` and the `visit_X` dispatch; each kind is stated by the `*Rendering` lemmas below |
| SqlVisitor.RenderQueryPart | lib/sql-parser/sql_visitor.rb:7-76 | the query-part `visit_X` methods; stated by `SelectRendering`, `SelectListRendering`, `AllRendering`, `LimitRendering` and the clause lemmas |
| SqlVisitor.RenderJoinPart | lib/sql-parser/sql_visitor.rb:78-84 | ON and USING, and CROSS JOIN at lines 166-168; stated by `ConditionClauseRendering`, `UsingRendering` and `CrossJoinRendering` |
| SqlVisitor.RenderPredicate | lib/sql-parser/sql_visitor.rb:94-136 | EXISTS, value lists and BETWEEN, and NOT at lines 230-232; stated by `PrefixPredicateRendering`, `NotRendering`, `InValueListRendering` and the BETWEEN lemmas |
| SqlVisitor.RenderExpression | lib/sql-parser/sql_visitor.rb:162-240 | calls, tables, columns, aliases and signs; stated by `FunctionRendering`, `IdentifierRendering`, `ReferenceRendering` and `SignRendering` |
| SqlVisitor.RenderLiteral | lib/sql-parser/sql_visitor.rb:242-284 | the literals; stated by `KeywordLiteralRendering`, `NumberRendering`, `StringLiteralRendering` and `DateLiteralRendering` |
| SqlVisitor.Arrayize | lib/sql-parser/sql_visitor.rb:312-314 | `arrayize`; stated by `ArrayizeRendering` |
| SqlVisitor.RenderPresent | lib/sql-parser/sql_visitor.rb:15-24 | one Select slot after `compact` and `visit_all`; stated by `RenderCompactSnoc` and `ClauseTextsPerSlot` |
| SqlVisitor.ComparisonOperator | lib/sql-parser/sql_visitor.rb:102-160 | the word each comparison `visit_X` passes; stated by `ComparisonOperatorPlain` and `ComparisonRendering` |
| SqlVisitor.Connective | lib/sql-parser/sql_visitor.rb:86-92 | the word `visit_And` and `visit_Or` pass; stated by `SearchConditionRendering` |
| SqlVisitor.ArithmeticOperator | lib/sql-parser/sql_visitor.rb:214-228 | the word each arithmetic `visit_X` passes; stated by `ArithmeticRendering` |
| SqlVisitor.JoinType | lib/sql-parser/sql_visitor.rb:170-196 | the word each qualified join `visit_X` passes; stated by `JoinTypeDistinct` |
| SqlText.QuoteForm | lib/sql-parser/sql_visitor.rb:288-290 | a quoted identifier is the name with one backtick added at each end and nothing escaped inside; the backtick count grows by exactly two |
| SqlText.QuotedForm | lib/sql-parser/sql_visitor.rb:254-264 | the `'%s'` template puts exactly one single quote at each end of its text and leaves the text unchanged in between |
| SqlText.EscapeLength | lib/sql-parser/sql_visitor.rb:292-294 | escaping lengthens a string by exactly its number of single quotes |
| SqlText.EscapeConcat | lib/sql-parser/sql_visitor.rb:292-294 | escaping works character by character: it distributes over concatenation |
| SqlText.EscapeQuoteFree | lib/sql-parser/sql_visitor.rb:292-294 | a string without single quotes is left unchanged |
| SqlText.EscapeQuoteCount | lib/sql-parser/sql_visitor.rb:292-294 | the escaped string holds exactly twice as many single quotes |
| SqlText.EscapeQuotesPaired | lib/sql-parser/sql_visitor.rb:292-294 | in an escaped string every single quote is immediately followed by a second one |
| SqlText.UnescapeEscape | lib/sql-parser/sql_visitor.rb:292-294 | collapsing doubled quotes undoes escaping, so escaping loses nothing |
| SqlText.EscapeUnescape | lib/sql-parser/sql_visitor.rb:292-294 | every quote-paired text is the escaping of its unescaping: escaping is a bijection onto the quote-paired texts |
| SqlText.JoinLength | lib/sql-parser/sql_visitor.rb:312-314 | `join(sep)` of n > 0 parts is exactly the parts plus n - 1 separators long |
| SqlText.JoinAppend | lib/sql-parser/sql_visitor.rb:312-314 | joining two non-empty lists puts exactly one separator between their joins |
| SqlText.NatToStringDigits | lib/sql-parser/sql_visitor.rb:274-276 | the decimal text of a natural number is a non-empty digit run without a leading zero, one digit exactly below ten |
| SqlText.IntToStringForm | lib/sql-parser/sql_visitor.rb:274-276 | `Integer#to_s` starts with `-` exactly for negative numbers, followed by the digits of the magnitude |
| SqlAst.FamilyOf | lib/sql-parser/sql_visitor.rb:3-5 | each node kind belongs to exactly one of nine dispatch families, so the first dispatch level selects one rendering per kind; four families are the kinds of one shared helper |
| SqlVisitor.ComparisonIsJoin | lib/sql-parser/sql_visitor.rb:300-302 | `comparison` is the three-part `join(' ')`: left operand, operator and right operand, one space between each two |
| SqlVisitor.SearchConditionForm | lib/sql-parser/sql_visitor.rb:296-306 | `search_condition` and `arithmetic` differ from `comparison` only by one enclosing pair of parentheses |
| SqlVisitor.RenderList | lib/sql-parser/sql_visitor.rb:308-310 | `visit_all` gives one text per node |
| SqlVisitor.RenderListPointwise | lib/sql-parser/sql_visitor.rb:308-310 | the i-th text of `visit_all` is the rendering of the i-th node |
| SqlVisitor.RenderListConcat | lib/sql-parser/sql_visitor.rb:308-310 | `visit_all` of a concatenation is the concatenation of the two `visit_all`s |
| SqlVisitor.ArrayizeRendering | lib/sql-parser/sql_visitor.rb:312-314 | `arrayize` of no nodes is empty, of one node is that node's text, and otherwise puts `, ` after the first node's text |
| SqlVisitor.ComparisonOperatorPlain | lib/sql-parser/sql_visitor.rb:102-160 | no comparison operator word contains a parenthesis |
| SqlVisitor.ComparisonRendering | lib/sql-parser/sql_visitor.rb:102-160 | each of the twelve comparisons is its operands around its operator word, separated by single spaces |
| SqlVisitor.ComparisonParentheses | lib/sql-parser/sql_visitor.rb:300-302 | a comparison adds no parenthesis: its text holds exactly the opening and closing parentheses of its operands |
| SqlVisitor.SearchConditionRendering | lib/sql-parser/sql_visitor.rb:86-92 | AND and OR always come out in one pair of parentheses of their own, whatever their operands |
| SqlVisitor.SearchConditionParentheses | lib/sql-parser/sql_visitor.rb:304-306 | AND and OR each add exactly one opening and one closing parenthesis to those of their operands |
| SqlVisitor.ArithmeticRendering | lib/sql-parser/sql_visitor.rb:214-228 | the four arithmetic operators always come out in one pair of parentheses of their own, whatever their operands |
| SqlVisitor.ArithmeticParentheses | lib/sql-parser/sql_visitor.rb:296-298 | an arithmetic operation adds exactly one opening and one closing parenthesis to those of its operands |
| SqlVisitor.Compact | lib/sql-parser/sql_visitor.rb:16-24 | `compact` keeps exactly the present values; order and repetitions are stated by `CompactConcat` and `CompactSingleton` |
| SqlVisitor.CompactSingleton | lib/sql-parser/sql_visitor.rb:16-24 | `compact` keeps a present value and drops an absent one |
| SqlVisitor.CompactConcat | lib/sql-parser/sql_visitor.rb:16-24 | `compact` distributes over concatenation, so it keeps the order and the repetitions of the present values |
| SqlVisitor.RenderCompactSnoc | lib/sql-parser/sql_visitor.rb:16-24 | `compact` then `visit_all` of one more slot appends that slot's text, if any, and nothing else |
| SqlVisitor.ClauseTextsPerSlot | lib/sql-parser/sql_visitor.rb:15-27 | `compact` then `visit_all` on the seven clause slots gives the present clauses' texts slot by slot, in the fixed order list, FROM, WHERE, GROUP BY, HAVING, ORDER BY, LIMIT |
| SqlVisitor.SelectRendering | lib/sql-parser/sql_visitor.rb:15-27 | a SELECT is `SELECT ` followed by the texts of its present clauses joined by single spaces |
| SqlVisitor.SelectLength | lib/sql-parser/sql_visitor.rb:15-27 | absent clauses leave no trace: with k > 0 clauses present the text is `SELECT `, the clause texts and exactly k - 1 spaces |
| SqlVisitor.SelectListRendering | lib/sql-parser/sql_visitor.rb:29-36 | `DISTINCT ` is put before the column list exactly when the list is marked distinct |
| SqlVisitor.DistinctKept | lib/sql-parser/sql_visitor.rb:29-36 | the DISTINCT mark is never lost: a distinct list and a plain list of the same columns render differently |
| SqlVisitor.LimitRendering | lib/sql-parser/sql_visitor.rb:50-56 | LIMIT carries an ` OFFSET ` part exactly when an offset is given; both numbers are written by `Integer#to_s` |
| SqlVisitor.SortSpecificationRendering | lib/sql-parser/sql_visitor.rb:58-64 | a sort specification is its column followed by ` ASC` or ` DESC` |
| SqlVisitor.ConditionClauseRendering | lib/sql-parser/sql_visitor.rb:66-80 | WHERE, HAVING and ON are their keyword, one space and the condition |
| SqlVisitor.ListClauseRendering | lib/sql-parser/sql_visitor.rb:7-48 | FROM and ORDER BY are their keyword, one space and the comma-space list; the two ORDER BY kinds (lines 7-9 and 46-48) read the same |
| SqlVisitor.GroupByRendering | lib/sql-parser/sql_visitor.rb:70-72 | GROUP BY is its keyword, one space and the comma-space list of columns |
| SqlVisitor.UsingRendering | lib/sql-parser/sql_visitor.rb:82-84 | USING puts its column list in parentheses |
| SqlVisitor.QualifiedJoinRendering | lib/sql-parser/sql_visitor.rb:170-196 | a qualified join is left operand, join type word, `JOIN`, right operand and condition, single-spaced |
| SqlVisitor.JoinTypeDistinct | lib/sql-parser/sql_visitor.rb:170-196 | the seven join type words are pairwise different |
| SqlVisitor.QualifiedJoinKindRecoverable | lib/sql-parser/sql_visitor.rb:316-318 | the join kind is not lost: two qualified joins with the same operands and condition and the same text are the same join |
| SqlVisitor.CrossJoinRendering | lib/sql-parser/sql_visitor.rb:166-168 | CROSS JOIN joins its operands with no condition |
| SqlVisitor.SubqueryRendering | lib/sql-parser/sql_visitor.rb:11-13 | a subquery is its query in parentheses |
| SqlVisitor.SubqueryParentheses | lib/sql-parser/sql_visitor.rb:11-13 | a subquery adds exactly one pair of parentheses, at the two ends, and leaves the query text between them unchanged |
| SqlVisitor.PrefixPredicateRendering | lib/sql-parser/sql_visitor.rb:94-100 | EXISTS and NOT EXISTS are a prefix word and a space before their operand, with no parentheses added |
| SqlVisitor.NotRendering | lib/sql-parser/sql_visitor.rb:230-232 | NOT is its word and a space before its operand, with no parentheses added |
| SqlVisitor.InValueListRendering | lib/sql-parser/sql_visitor.rb:126-128 | a value list is its comma-space list in parentheses |
| SqlVisitor.BetweenRendering | lib/sql-parser/sql_visitor.rb:130-132 | BETWEEN is unparenthesised, its bounds separated by AND |
| SqlVisitor.NotBetweenRendering | lib/sql-parser/sql_visitor.rb:134-136 | NOT BETWEEN is unparenthesised, its bounds separated by AND |
| SqlVisitor.SignRendering | lib/sql-parser/sql_visitor.rb:234-240 | a sign is put straight before its operand, with no space and no parentheses |
| SqlVisitor.ReferenceRendering | lib/sql-parser/sql_visitor.rb:202-212 | a qualified column is table, dot, column; an alias follows its value after ` AS ` |
| SqlVisitor.FunctionRendering | lib/sql-parser/sql_visitor.rb:162-164 | a call is its unquoted name and its arguments in parentheses, separated as by `arrayize` |
| SqlVisitor.StringLiteralRendering | lib/sql-parser/sql_visitor.rb:262-264 | a string literal is its escaped value between single quotes; inside, every quote is doubled, so the value cannot end the literal early |
| SqlVisitor.DateLiteralRendering | lib/sql-parser/sql_visitor.rb:254-260 | a DATE literal is `DATE ` before the quoted text; a timestamp has no keyword and reads like the string literal of its text |
| SqlVisitor.IdentifierRendering | lib/sql-parser/sql_visitor.rb:198-208 | tables and columns are both rendered by quoting their name, identically |
| SqlVisitor.AllRendering | lib/sql-parser/sql_visitor.rb:38-40 | the select-all list is a bare `*` |
| SqlVisitor.KeywordLiteralRendering | lib/sql-parser/sql_visitor.rb:242-252 | TRUE, FALSE and NULL are fixed keywords |
| SqlVisitor.NumberRendering | lib/sql-parser/sql_visitor.rb:266-276 | integers are written by `Integer#to_s`, floats as formatted, approximate floats as mantissa, `E`, exponent |
| SqlLexer.ReadName | lib/sql-parser/sql_visitor.rb:288-290 | the identifier reader stops at the first backtick: what it reads holds no backtick, and name, backtick and rest make up its input |
| SqlLexer.ReadNameRoundTrip | lib/sql-parser/sql_visitor.rb:288-290 | a backtick-free name followed by a backtick reads back as that name, whatever follows |
| SqlLexer.ReadQuotedName | lib/sql-parser/sql_visitor.rb:288-290 | whatever the quoted-identifier reader accepts is the quoting of the name it returns, followed by the rest |
| SqlLexer.QuotedNameRoundTrip | lib/sql-parser/sql_visitor.rb:288-290 | `quote` of a backtick-free name reads back as the name: on such names quoting loses nothing |
| SqlLexer.LiteralBodyRoundTrip | lib/sql-parser/sql_visitor.rb:292-294 | the escaping of any string, closed by one quote, reads back as the string, provided no quote follows |
| SqlLexer.StringLiteralRoundTrip | lib/sql-parser/sql_visitor.rb:262-264 | a rendered string literal reads back as its value, provided no quote follows it |
| SqlLexer.DigitRun | lib/sql-parser/sql_visitor.rb:274-276 | the digit reader takes the longest run of digits at the front of its input |
| SqlLexer.DigitRunConcat | lib/sql-parser/sql_visitor.rb:274-276 | a digit run followed by a non-digit is read exactly |
| SqlLexer.DecimalValueOfDigits | lib/sql-parser/sql_visitor.rb:274-276 | the digits `Integer#to_s` writes for a natural number have that number as their decimal value |
| SqlLexer.IntegerRoundTrip | lib/sql-parser/sql_visitor.rb:274-276 | `Integer#to_s` of any integer, negative ones included, reads back as that integer, provided no digit follows |
| SqlReader.ReadExpr | lib/sql-parser/sql_visitor.rb:304-306 | the chain reader produces only chains and consumes at least one character |
| SqlReader.ColumnText | lib/sql-parser/sql_visitor.rb:206-208 | the quoting of a backtick-free column name reads back as that column |
| SqlReader.StringText | lib/sql-parser/sql_visitor.rb:262-264 | a rendered string literal reads back as that string, provided no quote follows |
| SqlReader.IntegerText | lib/sql-parser/sql_visitor.rb:274-276 | `Integer#to_s` of any integer reads back as that integer, provided no digit follows |
| SqlReader.AtomRoundTrip | lib/sql-parser/sql_visitor.rb:206-276 | a backtick-free column (206-208), a string literal (262-264) or an integer (274-276) reads back as itself |
| SqlReader.BinaryRoundTrip | lib/sql-parser/sql_visitor.rb:304-306 | a parenthesised AND, OR or arithmetic node reads back as itself once its operands do |
| SqlReader.ChainRoundTrip | lib/sql-parser/sql_visitor.rb:304-306 | every chain of AND, OR and arithmetic over backtick-free columns, integers and strings reads back from its rendering as the same tree, and the text after it is left alone |
| SqlReader.ChainRenderingInjective | lib/sql-parser/sql_visitor.rb:304-306 | two chains with the same rendering are the same tree: the unconditional parentheses make the text unambiguous whatever the precedence rules of the dialect |
| SqlReader.LimitRoundTrip | lib/sql-parser/sql_visitor.rb:50-56 | a LIMIT clause reads back with its count and its offset, or its lack of one |
| SqlReader.LimitRenderingInjective | lib/sql-parser/sql_visitor.rb:50-56 | the text of a LIMIT clause determines its count and its offset |
| SqlAmbiguity.SignOverComparison | lib/sql-parser/sql_visitor.rb:234-240 | a minus sign on a comparison and a minus sign on its left operand render the same text |
| SqlAmbiguity.NotOverComparison | lib/sql-parser/sql_visitor.rb:230-232 | NOT on a comparison and NOT on its left operand render the same text |
| SqlAmbiguity.ComparisonChain | lib/sql-parser/sql_visitor.rb:300-302 | the two groupings of `a = b = c` render the same text |
| SqlAmbiguity.SignOverArithmetic | lib/sql-parser/sql_visitor.rb:234-240 | a sign on an arithmetic operation and a sign on its left operand render differently: `-(` against `(-` |
| SqlAmbiguity.SignedInteger | lib/sql-parser/sql_visitor.rb:234-240 | a minus sign on a positive integer renders like the negative integer |
| SqlAmbiguity.BacktickInName | lib/sql-parser/sql_visitor.rb:288-290 | a column named with a backtick, a dot and a backtick renders like a qualified column |
| SqlExamples.LimitExamples | lib/sql-parser/sql_visitor.rb:50-56 | `LIMIT 10` and `LIMIT 10 OFFSET 5` |
| SqlExamples.SelectDistinctExample | lib/sql-parser/sql_visitor.rb:15-36 | a SELECT DISTINCT of one column from one table, the five absent clauses leaving no trace |
| SqlExamples.InnerJoinExample | lib/sql-parser/sql_visitor.rb:170-172 | an INNER JOIN with an ON equality between qualified columns |

## Left out

- The `accept` double dispatch is replaced by the match in `Render`. Every node kind has a case, so the failure for a node class without a `visit_X` method cannot occur.
- `Float#to_s` and `strftime` are not modelled. `Float`, `Date` and `DateTime` nodes carry the text these methods produce.
- `escape` uses `gsub` with a regular expression. It is modelled as the character-by-character substitution that regular expression performs.
- The parser that builds the tree is not part of this model. The readers in `sql_lexer.dfy` and `sql_reader.dfy` cover only the pieces of text whose round trip is stated. They are not a model of that parser.
- `visit_True` and `visit_False` are defined twice in the class (lines 242-248 and 278-284), with the same bodies. Ruby keeps the later definition; both produce the same text.
- LIMIT's `count` and `offset` are interpolated with `to_s`, not visited. They are modelled as integers.
- All seven slots of a SELECT are optional, because `compact` drops every nil, including a missing select list or FROM clause.
- A nil child where the visitor expects a node is not modelled. In Ruby, `visit(nil)` fails on `nil.accept` (line 4) and `arrayize(nil)` fails on `nil.collect` (line 309), for example for a WHERE clause without a condition. Every non-optional child of a `Node` is present, so that failure cannot occur in the model and every rendering succeeds.
- Encoding errors are not modelled. `escape`'s `gsub` (line 293) raises on a string with an invalid byte sequence, and `join` and string interpolation (lines 26, 301, 313) raise when non-ASCII parts have incompatible encodings. Strings are sequences of valid characters here, so these failures cannot occur in the model.
