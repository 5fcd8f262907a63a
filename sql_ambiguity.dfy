/** Where the rendered text does not determine the tree. The visitor
    parenthesises AND, OR and arithmetic, but not comparisons and not the
    operand of a sign or of NOT, and it does not escape backticks in
    identifiers. Most lemmas here name two different trees with the same
    text; `SignOverArithmetic` shows the contrast, where the parentheses
    keep two trees apart. */
module SqlAmbiguity {
  import opened SqlText
  import opened SqlAst
  import opened SqlVisitor

  lemma PrefixShape(p: string, a: string, op: string, b: string)
    ensures p + (a + " " + op + " " + b) == p + a + " " + op + " " + b
  {
  }

  /** A sign before a comparison reads as a sign on its left operand:
      `-a = b` stands for both trees. */
  lemma SignOverComparison(a: Node, b: Node)
    ensures UnaryMinus(Equals(a, b)) != Equals(UnaryMinus(a), b)
    ensures Render(UnaryMinus(Equals(a, b))) == Render(Equals(UnaryMinus(a), b))
  {
    SignRendering(Equals(a, b));
    SignRendering(a);
    ComparisonRendering(Equals(a, b));
    ComparisonRendering(Equals(UnaryMinus(a), b));
    PrefixShape("-", Render(a), "=", Render(b));
  }

  /** NOT before a comparison reads as NOT on its left operand:
      `NOT a = b` stands for both trees. */
  lemma NotOverComparison(a: Node, b: Node)
    ensures Not(Equals(a, b)) != Equals(Not(a), b)
    ensures Render(Not(Equals(a, b))) == Render(Equals(Not(a), b))
  {
    NotRendering(Equals(a, b));
    NotRendering(a);
    ComparisonRendering(Equals(a, b));
    ComparisonRendering(Equals(Not(a), b));
    PrefixShape("NOT ", Render(a), "=", Render(b));
  }

  /** `(a = b) = c`, written out. */
  lemma LeftChainText(a: Node, b: Node, c: Node)
    ensures Render(Equals(Equals(a, b), c))
            == Render(a) + " " + "=" + " " + Render(b) + " " + "=" + " " + Render(c)
  {
    ComparisonRendering(Equals(a, b));
    ComparisonRendering(Equals(Equals(a, b), c));
  }

  /** `a = (b = c)`, written out. */
  lemma RightChainText(a: Node, b: Node, c: Node)
    ensures Render(Equals(a, Equals(b, c)))
            == Render(a) + " " + "=" + " " + Render(b) + " " + "=" + " " + Render(c)
  {
    var A, B, C := Render(a), Render(b), Render(c);
    ComparisonRendering(Equals(b, c));
    ComparisonRendering(Equals(a, Equals(b, c)));
    assert A + " " + "=" + " " + (B + " " + "=" + " " + C)
        == A + " " + "=" + " " + B + " " + "=" + " " + C;
  }

  /** A comparison of a comparison is not parenthesised either:
      `a = b = c` stands for both groupings. */
  lemma ComparisonChain(a: Node, b: Node, c: Node)
    ensures Equals(Equals(a, b), c) != Equals(a, Equals(b, c))
    ensures Render(Equals(Equals(a, b), c)) == Render(Equals(a, Equals(b, c)))
  {
    LeftChainText(a, b, c);
    RightChainText(a, b, c);
  }

  /** Arithmetic under a sign stays apart from the sign on its left
      operand: the operation brings its own parentheses, so `-(a + b)` and
      `(-a + b)` differ in their first character. */
  lemma SignOverArithmetic(a: Node, b: Node)
    ensures var s := Render(UnaryMinus(Add(a, b))); |s| > 0 && s[0] == '-'
    ensures var s := Render(Add(UnaryMinus(a), b)); |s| > 0 && s[0] == '('
    ensures Render(UnaryMinus(Add(a, b))) != Render(Add(UnaryMinus(a), b))
  {
    SignRendering(Add(a, b));
    ArithmeticRendering(Add(a, b));
    ArithmeticRendering(Add(UnaryMinus(a), b));
  }

  /** A minus sign before a positive integer reads like the negative
      integer: `-5` stands for both trees. */
  lemma SignedInteger(i: int)
    requires i > 0
    ensures UnaryMinus(Integer(i)) != Integer(-i)
    ensures Render(UnaryMinus(Integer(i))) == Render(Integer(-i))
  {
    SignRendering(Integer(i));
    NumberRendering(i, [], Null, Null);
    NumberRendering(-i, [], Null, Null);
  }

  lemma QuotedPairShape(t: string, c: string)
    ensures "`" + t + "`" + "." + ("`" + c + "`") == "`" + (t + "`.`" + c) + "`"
  {
  }

  /** `quote` leaves backticks inside a name alone, so a column whose name
      holds a backtick, a dot and a backtick reads like a qualified column. */
  lemma BacktickInName(t: string, c: string)
    ensures QualifiedColumn(Table(t), Column(c)) != Column(t + "`.`" + c)
    ensures Render(QualifiedColumn(Table(t), Column(c))) == Render(Column(t + "`.`" + c))
  {
    ReferenceRendering(Table(t), Column(c));
    IdentifierRendering(t);
    IdentifierRendering(c);
    IdentifierRendering(t + "`.`" + c);
    QuotedPairShape(t, c);
  }
}
