/** Reading rendered text back into trees, for the parts of the output whose
    form is meant to be unambiguous: chains of AND, OR and arithmetic over
    backtick-free columns, integers and strings, which the visitor
    parenthesises unconditionally, and the LIMIT clause. The round-trip lemmas show that the text the
    visitor writes for such a tree determines the tree. */
module SqlReader {
  import opened Wrappers
  import opened SqlText
  import opened SqlLexer
  import opened SqlAst
  import opened SqlVisitor

  // ---------------------------------------------------------------------
  // the fragment

  /** Columns with a backtick-free name, integer and string literals. */
  predicate IsChainAtom(n: Node) {
    (n.Column? && '`' !in n.name) || n.Integer? || n.String?
  }

  /** The binary nodes rendered in parentheses of their own. */
  predicate IsParenthesised(n: Node) {
    IsSearchCondition(n) || IsArithmetic(n)
  }

  /** Atoms combined by AND, OR and the four arithmetic operators. */
  predicate InChain(n: Node) {
    if IsChainAtom(n) then true
    else if IsParenthesised(n) then InChain(n.left) && InChain(n.right)
    else false
  }

  /** The word the visitor puts between the operands of a parenthesised
      node. */
  function BinaryWord(n: Node): string
    requires IsParenthesised(n)
  {
    if IsSearchCondition(n) then Connective(n) else ArithmeticOperator(n)
  }

  lemma BinaryRendering(n: Node)
    requires IsParenthesised(n)
    ensures Render(n) == "(" + Render(n.left) + " " + BinaryWord(n) + " " + Render(n.right) + ")"
  {
    if IsSearchCondition(n) {
      SearchConditionRendering(n);
    } else {
      ArithmeticRendering(n);
    }
  }

  // ---------------------------------------------------------------------
  // the reader

  /** The operator between two operands: a space, one of the six words and
      a space. Returns the word and the text after it. */
  function ReadOperator(t: string): (r: Option<(string, string)>)
    ensures r.Some? ==> |r.value.1| < |t|
    ensures r.Some? ==> t == " " + r.value.0 + " " + r.value.1
  {
    if StartsWith(t, " AND ") then Some(("AND", t[5..]))
    else if StartsWith(t, " OR ") then Some(("OR", t[4..]))
    else if StartsWith(t, " + ") then Some(("+", t[3..]))
    else if StartsWith(t, " - ") then Some(("-", t[3..]))
    else if StartsWith(t, " * ") then Some(("*", t[3..]))
    else if StartsWith(t, " / ") then Some(("/", t[3..]))
    else None
  }

  /** The node an operator word stands for. */
  function Combine(word: string, left: Node, right: Node): (n: Node)
    ensures IsParenthesised(n) && n.left == left && n.right == right
  {
    if word == "AND" then And(left, right)
    else if word == "OR" then Or(left, right)
    else if word == "+" then Add(left, right)
    else if word == "-" then Subtract(left, right)
    else if word == "*" then Multiply(left, right)
    else Divide(left, right)
  }

  /** A column, a string literal or an integer. */
  function ReadAtom(t: string): (r: Option<(Node, string)>)
    ensures r.Some? ==> |r.value.1| < |t| && IsChainAtom(r.value.0)
  {
    if t == [] then None
    else if t[0] == '`' then
      match ReadQuotedName(t)
      case None => None
      case Some((name, rest)) => Some((Column(name), rest))
    else if t[0] == '\'' then
      match ReadStringLiteral(t)
      case None => None
      case Some((text, rest)) => Some((String(text), rest))
    else
      match ReadInteger(t)
      case None => None
      case Some((i, rest)) => Some((Integer(i), rest))
  }

  /** An atom, or a parenthesised pair of expressions with an operator
      word between them. */
  function ReadExpr(t: string): (r: Option<(Node, string)>)
    ensures r.Some? ==> |r.value.1| < |t| && InChain(r.value.0)
    decreases |t|
  {
    if t != [] && t[0] == '(' then
      match ReadExpr(t[1..])
      case None => None
      case Some((left, t1)) =>
        match ReadOperator(t1)
        case None => None
        case Some((word, t2)) =>
          match ReadExpr(t2)
          case None => None
          case Some((right, t3)) =>
            if t3 != [] && t3[0] == ')' then Some((Combine(word, left, right), t3[1..]))
            else None
    else ReadAtom(t)
  }

  // ---------------------------------------------------------------------
  // round trip

  /** What may follow a rendered expression without merging into it: not a
      digit (it would extend an integer) and not a single quote (it would
      read as an escaped quote inside a string literal). */
  predicate Separated(rest: string) {
    rest == [] || (!IsDigit(rest[0]) && rest[0] != '\'')
  }

  lemma ColumnText(name: string, rest: string)
    requires '`' !in name
    ensures ReadExpr(Quote(name) + rest) == Some((Column(name), rest))
  {
    QuotedNameRoundTrip(name, rest);
  }

  lemma StringText(s: string, rest: string)
    requires rest == [] || rest[0] != '\''
    ensures ReadExpr(Quoted(Escape(s)) + rest) == Some((String(s), rest))
  {
    StringLiteralRoundTrip(s, rest);
  }

  lemma IntegerText(i: int, rest: string)
    requires rest == [] || !IsDigit(rest[0])
    ensures ReadExpr(IntToString(i) + rest) == Some((Integer(i), rest))
  {
    var d := IntToString(i);
    IntToStringForm(i);
    var t := d + rest;
    assert t[0] == d[0];
    assert t != [] && t[0] != '(' && t[0] != '`' && t[0] != '\'';
    IntegerRoundTrip(i, rest);
    assert ReadAtom(t) == Some((Integer(i), rest));
  }

  /** Every atom of a chain reads back as itself. */
  lemma AtomRoundTrip(n: Node, rest: string)
    requires IsChainAtom(n) && Separated(rest)
    ensures ReadExpr(Render(n) + rest) == Some((n, rest))
  {
    if n.Column? {
      IdentifierRendering(n.name);
      ColumnText(n.name, rest);
    } else if n.String? {
      StringLiteralText(n.text);
      StringText(n.text, rest);
    } else {
      NumberRendering(n.number, [], Null, Null);
      IntegerText(n.number, rest);
    }
  }

  /** The six words the reader accepts between two operands. */
  predicate IsOperatorWord(w: string) {
    w == "AND" || w == "OR" || w == "+" || w == "-" || w == "*" || w == "/"
  }

  lemma BinaryWordIsOperatorWord(n: Node)
    requires IsParenthesised(n)
    ensures IsOperatorWord(BinaryWord(n))
    ensures Combine(BinaryWord(n), n.left, n.right) == n
  {
  }

  /** The operator reader takes exactly the word that is there. */
  lemma OperatorRoundTrip(w: string, x: string)
    requires IsOperatorWord(w)
    ensures ReadOperator(" " + w + " " + x) == Some((w, x))
  {
    var t := " " + w + " " + x;
    StartsWithConcat(" " + w + " ", x);
    assert t[1] == w[0];
  }

  lemma ParenthesisedShape(l: string, w: string, r: string, rest: string)
    ensures "(" + l + " " + w + " " + r + ")" + rest == "(" + (l + (" " + w + " " + (r + (")" + rest))))
  {
    calc {
      "(" + l + " " + w + " " + r + ")" + rest;
      "(" + l + " " + w + " " + (r + (")" + rest));
      "(" + l + (" " + w + " " + (r + (")" + rest)));
      "(" + (l + (" " + w + " " + (r + (")" + rest))));
    }
  }

  /** A parenthesised pair reads back once both operands do. */
  lemma ParenthesisedStep(inner: string, w: string, x: string, rest: string, left: Node, right: Node)
    requires IsOperatorWord(w)
    requires ReadExpr(inner) == Some((left, " " + w + " " + x))
    requires ReadExpr(x) == Some((right, ")" + rest))
    ensures ReadExpr("(" + inner) == Some((Combine(w, left, right), rest))
  {
    var t := "(" + inner;
    var close := ")" + rest;
    assert t[0] == '(' && t[1..] == inner;
    OperatorRoundTrip(w, x);
    assert close[0] == ')' && close[1..] == rest;
  }

  /** The text a left operand is followed by inside a parenthesised pair. */
  function AfterLeft(n: Node, rest: string): (after: string)
    requires IsParenthesised(n)
    ensures after != [] && after[0] == ' ' && Separated(after)
  {
    " " + BinaryWord(n) + " " + (Render(n.right) + (")" + rest))
  }

  /** The text of a parenthesised pair, split after its opening
      parenthesis and after its left operand. */
  lemma BinaryText(n: Node, rest: string)
    requires IsParenthesised(n)
    ensures Render(n) + rest == "(" + (Render(n.left) + AfterLeft(n, rest))
  {
    BinaryRendering(n);
    ParenthesisedShape(Render(n.left), BinaryWord(n), Render(n.right), rest);
  }

  /** A parenthesised pair reads back as itself once its operands do. */
  lemma BinaryRoundTrip(n: Node, rest: string)
    requires IsParenthesised(n)
    requires ReadExpr(Render(n.left) + AfterLeft(n, rest)) == Some((n.left, AfterLeft(n, rest)))
    requires ReadExpr(Render(n.right) + (")" + rest)) == Some((n.right, ")" + rest))
    ensures ReadExpr(Render(n) + rest) == Some((n, rest))
  {
    BinaryText(n, rest);
    BinaryWordIsOperatorWord(n);
    ParenthesisedStep(Render(n.left) + AfterLeft(n, rest), BinaryWord(n), Render(n.right) + (")" + rest),
                      rest, n.left, n.right);
  }

  /** Reading the text of a chain gives back the chain, and the text after
      it is left untouched. */
  lemma {:induction false} ChainRoundTrip(n: Node, rest: string)
    requires InChain(n) && Separated(rest)
    ensures ReadExpr(Render(n) + rest) == Some((n, rest))
    decreases n
  {
    if IsChainAtom(n) {
      AtomRoundTrip(n, rest);
    } else {
      ChainRoundTrip(n.left, AfterLeft(n, rest));
      assert (")" + rest)[0] == ')';
      ChainRoundTrip(n.right, ")" + rest);
      BinaryRoundTrip(n, rest);
    }
  }

  /** Different chains never render to the same text: the parentheses the
      visitor adds make the text of a chain determine its tree. */
  lemma ChainRenderingInjective(a: Node, b: Node)
    requires InChain(a) && InChain(b) && Render(a) == Render(b)
    ensures a == b
  {
    ChainRoundTrip(a, []);
    ChainRoundTrip(b, []);
    assert Render(a) + [] == Render(a);
    assert Render(b) + [] == Render(b);
  }

  // ---------------------------------------------------------------------
  // LIMIT

  /** `LIMIT <count>` with an optional ` OFFSET <offset>`. */
  function ReadLimit(t: string): (r: Option<(Node, string)>)
    ensures r.Some? ==> |r.value.1| < |t| && r.value.0.LimitClause?
  {
    if !StartsWith(t, "LIMIT ") then None
    else match ReadInteger(t[6..])
      case None => None
      case Some((count, t1)) =>
        if StartsWith(t1, " OFFSET ") then
          match ReadInteger(t1[8..])
          case None => None
          case Some((offset, t2)) => Some((LimitClause(count, Some(offset)), t2))
        else Some((LimitClause(count, None), t1))
  }

  lemma LimitText(count: int, rest: string)
    requires rest == [] || !IsDigit(rest[0])
    requires !StartsWith(rest, " OFFSET ")
    ensures ReadLimit("LIMIT " + (IntToString(count) + rest)) == Some((LimitClause(count, None), rest))
  {
    StartsWithConcat("LIMIT ", IntToString(count) + rest);
    IntegerRoundTrip(count, rest);
  }

  lemma LimitShape(c: string, o: string, rest: string)
    ensures "LIMIT " + c + " OFFSET " + o + rest == "LIMIT " + (c + (" OFFSET " + (o + rest)))
  {
  }

  lemma LimitOffsetText(count: int, offset: int, rest: string)
    requires rest == [] || !IsDigit(rest[0])
    ensures ReadLimit("LIMIT " + (IntToString(count) + (" OFFSET " + (IntToString(offset) + rest))))
            == Some((LimitClause(count, Some(offset)), rest))
  {
    var tail := " OFFSET " + (IntToString(offset) + rest);
    StartsWithConcat("LIMIT ", IntToString(count) + tail);
    IntegerRoundTrip(count, tail);
    StartsWithConcat(" OFFSET ", IntToString(offset) + rest);
    IntegerRoundTrip(offset, rest);
  }

  /** A LIMIT clause reads back with its count and offset, provided the
      text after it does not continue the last number and, when there is no
      offset, does not start an OFFSET part of its own. */
  lemma LimitRoundTrip(count: int, offset: Option<int>, rest: string)
    requires rest == [] || !IsDigit(rest[0])
    requires offset.None? ==> !StartsWith(rest, " OFFSET ")
    ensures ReadLimit(Render(LimitClause(count, offset)) + rest)
            == Some((LimitClause(count, offset), rest))
  {
    LimitRendering(count, offset);
    var c := IntToString(count);
    if offset.Some? {
      LimitShape(c, IntToString(offset.value), rest);
      LimitOffsetText(count, offset.value, rest);
    } else {
      assert "LIMIT " + c + rest == "LIMIT " + (c + rest);
      LimitText(count, rest);
    }
  }

  /** The text of a LIMIT clause determines its count and its offset. */
  lemma LimitRenderingInjective(a: Node, b: Node)
    requires a.LimitClause? && b.LimitClause? && Render(a) == Render(b)
    ensures a == b
  {
    assert !StartsWith([], " OFFSET ");
    LimitRoundTrip(a.count, a.offset, []);
    LimitRoundTrip(b.count, b.offset, []);
    assert Render(a) + [] == Render(a);
    assert Render(b) + [] == Render(b);
  }
}
