/** Three representative renderings: LIMIT with and without OFFSET, a
    SELECT DISTINCT and an INNER JOIN, stated for any table and column
    names. */
module SqlExamples {
  import opened Wrappers
  import opened SqlText
  import opened SqlAst
  import opened SqlVisitor

  /** `LIMIT 10` and `LIMIT 10 OFFSET 5`. */
  lemma LimitExamples()
    ensures Render(LimitClause(10, None)) == "LIMIT 10"
    ensures Render(LimitClause(10, Some(5))) == "LIMIT 10 OFFSET 5"
  {
  }

  lemma DistinctColumnList(c: string)
    ensures Render(SelectList([Column(c)], true)) == "DISTINCT " + Quote(c)
  {
    SelectListRendering([Column(c)]);
    ArrayizeRendering([Column(c)]);
    IdentifierRendering(c);
  }

  lemma SingleTableFrom(t: string)
    ensures Render(FromClause([Table(t)])) == "FROM " + Quote(t)
  {
    assert Render(FromClause([Table(t)])) == "FROM " + Arrayize([Table(t)]);
    ArrayizeRendering([Table(t)]);
    IdentifierRendering(t);
  }

  /** `SELECT DISTINCT `a` FROM `t``: the two present clauses joined by
      one space, the five absent ones leaving no trace. */
  lemma SelectDistinctExample(c: string, t: string)
    ensures Render(Select(Some(SelectList([Column(c)], true)), Some(FromClause([Table(t)])),
                          None, None, None, None, None))
            == "SELECT " + ("DISTINCT " + Quote(c) + " " + ("FROM " + Quote(t)))
  {
    var list, from := SelectList([Column(c)], true), FromClause([Table(t)]);
    var s := Select(Some(list), Some(from), None, None, None, None, None);
    var none := RenderPresent(None);
    assert Render(s) == "SELECT " + Join(" ", RenderPresent(Some(list)) + RenderPresent(Some(from))
                                              + none + none + none + none + none) by {
      assert RenderPresent(Some(from)) == [Render(from)];
    }
    assert RenderPresent(Some(list)) == [Render(list)] && none == [];
    TwoClauses(Render(list), Render(from));
    DistinctColumnList(c);
    SingleTableFrom(t);
  }

  lemma TwoClauses(x: string, y: string)
    ensures Join(" ", [x] + [y] + [] + [] + [] + [] + []) == x + " " + y
  {
    var parts: seq<string> := [x] + [y] + [] + [] + [] + [] + [];
    assert parts == [x, y] && parts[1..] == [y];
  }

  lemma QualifiedColumnExample(t: string, c: string)
    ensures Render(QualifiedColumn(Table(t), Column(c))) == Quote(t) + "." + Quote(c)
  {
    IdentifierRendering(t);
    IdentifierRendering(c);
  }

  /** `` `a` INNER JOIN `b` ON `a`.`id` = `b`.`a_id` ``. */
  lemma InnerJoinExample(a: string, b: string, id: string, aid: string)
    ensures Render(InnerJoin(Table(a), Table(b),
                             On(Equals(QualifiedColumn(Table(a), Column(id)),
                                       QualifiedColumn(Table(b), Column(aid))))))
            == Quote(a) + " " + "INNER" + " JOIN " + Quote(b) + " "
               + ("ON " + ((Quote(a) + "." + Quote(id)) + " " + "=" + " " + (Quote(b) + "." + Quote(aid))))
  {
    var x, y := QualifiedColumn(Table(a), Column(id)), QualifiedColumn(Table(b), Column(aid));
    var j := InnerJoin(Table(a), Table(b), On(Equals(x, y)));
    assert Render(j) == QualifiedJoin("INNER", Render(Table(a)), Render(Table(b)), Render(On(Equals(x, y))));
    assert Render(On(Equals(x, y))) == "ON " + Render(Equals(x, y));
    assert Render(Equals(x, y)) == Comparison("=", Render(x), Render(y));
    IdentifierRendering(a);
    IdentifierRendering(b);
    QualifiedColumnExample(a, id);
    QualifiedColumnExample(b, aid);
  }
}
