/** KeywordExpression: the visibility filter over photo keywords, a
    propositional sentence in conjunctive normal form. Keywords are the
    symbols; the expression is a conjunction of clauses and each clause a
    disjunction of possibly negated symbols. An empty clause stands for
    true. */
module Keywords {

  /** A keyword symbol, possibly negated. */
  datatype Literal = Literal(symbol: string, isNegated: bool)

  type Clause = seq<Literal>

  /** A literal is satisfied by a photo's keyword list when its symbol is
      present and it is not negated, or absent and it is negated. */
  predicate LiteralHolds(l: Literal, photoKeywords: seq<string>)
  {
    (l.isNegated && l.symbol !in photoKeywords) || (!l.isNegated && l.symbol in photoKeywords)
  }

  /** The inner scan of checkKeywords: stops at the first satisfied literal. */
  function ClauseValue(literals: Clause, photoKeywords: seq<string>): bool
  {
    if literals == [] then false
    else if LiteralHolds(literals[0], photoKeywords) then true
    else ClauseValue(literals[1..], photoKeywords)
  }

  /** The outer scan of checkKeywords: a non-empty clause without a
      satisfied literal rejects; empty clauses are skipped. */
  function Accepts(clauses: seq<Clause>, photoKeywords: seq<string>): bool
  {
    if clauses == [] then true
    else if clauses[0] != [] && !ClauseValue(clauses[0], photoKeywords) then false
    else Accepts(clauses[1..], photoKeywords)
  }

  /** Reference meaning of the filter, independent of the scan order: every
      non-empty clause has a satisfied literal. */
  ghost predicate Satisfies(clauses: seq<Clause>, photoKeywords: seq<string>)
  {
    forall i :: 0 <= i < |clauses| && clauses[i] != [] ==>
      exists j :: 0 <= j < |clauses[i]| && LiteralHolds(clauses[i][j], photoKeywords)
  }

  /** A clause is true exactly when one of its literals holds. */
  lemma {:induction false} ClauseValueMeaning(literals: Clause, photoKeywords: seq<string>)
    ensures ClauseValue(literals, photoKeywords) <==>
      exists j :: 0 <= j < |literals| && LiteralHolds(literals[j], photoKeywords)
  {
    if literals != [] && !LiteralHolds(literals[0], photoKeywords) {
      ClauseValueMeaning(literals[1..], photoKeywords);
      if exists j :: 0 <= j < |literals| && LiteralHolds(literals[j], photoKeywords) {
        var j :| 0 <= j < |literals| && LiteralHolds(literals[j], photoKeywords);
        assert literals[1..][j - 1] == literals[j];
      }
    } else if literals != [] {
      assert LiteralHolds(literals[0], photoKeywords);
    }
  }

  /** checkKeywords computes the reference meaning, in both directions. */
  lemma {:induction false} AcceptsMeaning(clauses: seq<Clause>, photoKeywords: seq<string>)
    ensures Accepts(clauses, photoKeywords) <==> Satisfies(clauses, photoKeywords)
  {
    if clauses != [] {
      ClauseValueMeaning(clauses[0], photoKeywords);
      AcceptsMeaning(clauses[1..], photoKeywords);
      if Satisfies(clauses, photoKeywords) {
        forall i | 0 <= i < |clauses[1..]| && clauses[1..][i] != []
          ensures exists j :: 0 <= j < |clauses[1..][i]| && LiteralHolds(clauses[1..][i][j], photoKeywords)
        {
          assert clauses[1..][i] == clauses[i + 1];
        }
      }
      if Accepts(clauses, photoKeywords) {
        forall i | 0 <= i < |clauses| && clauses[i] != []
          ensures exists j :: 0 <= j < |clauses[i]| && LiteralHolds(clauses[i][j], photoKeywords)
        {
          if i > 0 { assert clauses[i] == clauses[1..][i - 1]; }
        }
      }
    }
  }

  /** The filter is a conjunction: splitting the clause list splits the
      verdict. */
  lemma {:induction false} AcceptsConcat(a: seq<Clause>, b: seq<Clause>, photoKeywords: seq<string>)
    ensures Accepts(a + b, photoKeywords) == (Accepts(a, photoKeywords) && Accepts(b, photoKeywords))
  {
    if a == [] {
      assert a + b == b;
    } else {
      assert (a + b)[0] == a[0];
      assert (a + b)[1..] == a[1..] + b;
      AcceptsConcat(a[1..], b, photoKeywords);
    }
  }

  /** A single empty clause, the state after construction or clear(),
      accepts every keyword list. */
  lemma EmptyExpressionAcceptsAll(photoKeywords: seq<string>)
    ensures Accepts([[]], photoKeywords)
  {
  }

  /** Appending an empty clause does not change any verdict. */
  lemma AddClausePreservesVerdict(clauses: seq<Clause>, photoKeywords: seq<string>)
    ensures Accepts(clauses + [[]], photoKeywords) == Accepts(clauses, photoKeywords)
  {
    AcceptsConcat(clauses, [[]], photoKeywords);
  }

  /** Dropping the last clause can only let more photos pass. */
  lemma DeleteLastClauseWidens(clauses: seq<Clause>, photoKeywords: seq<string>)
    requires clauses != [] && Accepts(clauses, photoKeywords)
    ensures Accepts(clauses[..|clauses| - 1], photoKeywords)
  {
    assert clauses == clauses[..|clauses| - 1] + [clauses[|clauses| - 1]];
    AcceptsConcat(clauses[..|clauses| - 1], [clauses[|clauses| - 1]], photoKeywords);
  }

  /** Adding a literal to a non-empty last clause can only let more photos
      pass. (An empty last clause stands for true, so there a literal can
      only narrow the filter.) */
  lemma AddLiteralWidens(clauses: seq<Clause>, l: Literal, photoKeywords: seq<string>)
    requires clauses != [] && clauses[|clauses| - 1] != [] && Accepts(clauses, photoKeywords)
    ensures Accepts(clauses[..|clauses| - 1] + [clauses[|clauses| - 1] + [l]], photoKeywords)
  {
    var n := |clauses|;
    var last := clauses[n - 1];
    assert clauses == clauses[..n - 1] + [last];
    AcceptsConcat(clauses[..n - 1], [last], photoKeywords);
    AcceptsConcat(clauses[..n - 1], [last + [l]], photoKeywords);
    assert [last][0] == last && [last][1..] == [];
    assert [last + [l]][0] == last + [l] && [last + [l]][1..] == [];
    ClauseValueMeaning(last, photoKeywords);
    ClauseValueMeaning(last + [l], photoKeywords);
    var j :| 0 <= j < |last| && LiteralHolds(last[j], photoKeywords);
    assert (last + [l])[j] == last[j];
  }

  /** Element-wise equality of two clause lists: same lengths, and literals
      that agree in symbol and in negation. */
  ghost predicate SameStructure(a: seq<Clause>, b: seq<Clause>)
  {
    && |a| == |b|
    && (forall i :: 0 <= i < |a| ==> |a[i]| == |b[i]|)
    && (forall i, j :: 0 <= i < |a| && 0 <= j < |a[i]| && j < |b[i]| ==>
          a[i][j].symbol == b[i][j].symbol && a[i][j].isNegated == b[i][j].isNegated)
  }

  /** List.equals on the clause lists is exactly element-wise equality. */
  lemma StructuralEquality(a: seq<Clause>, b: seq<Clause>)
    ensures a == b <==> SameStructure(a, b)
  {
    if SameStructure(a, b) {
      forall i | 0 <= i < |a| ensures a[i] == b[i] {
        forall j | 0 <= j < |a[i]| ensures a[i][j] == b[i][j] {
          assert a[i][j].symbol == b[i][j].symbol && a[i][j].isNegated == b[i][j].isNegated;
        }
      }
    }
  }

  /** The text of the literals of one clause: " or" between literals,
      " not" before a negated one, a blank before each symbol. */
  function LiteralsText(literals: Clause, first: bool): string
  {
    if literals == [] then ""
    else
      (if first then "" else " or")
      + (if literals[0].isNegated then " not" else "")
      + " " + literals[0].symbol
      + LiteralsText(literals[1..], false)
  }

  /** One clause on one line; an empty clause reads " true". */
  function ClauseText(literals: Clause): string
  {
    " " + (if literals == [] then " true" else "") + LiteralsText(literals, true) + "\n"
  }

  /** toString: the clause lines, with a line "and" between neighbours. */
  function Render(clauses: seq<Clause>, first: bool): string
  {
    if clauses == [] then ""
    else (if first then "" else "and\n") + ClauseText(clauses[0]) + Render(clauses[1..], false)
  }

  /** The text of a fresh or cleared expression. */
  lemma RenderEmptyExpression()
    ensures Render([[]], true) == "  true\n"
  {
  }

  /** Rendering is compositional: a further clause adds "and" and its own
      line at the end. */
  lemma {:induction false} RenderAppend(clauses: seq<Clause>, c: Clause, first: bool)
    requires clauses != []
    ensures Render(clauses + [c], first) == Render(clauses, first) + "and\n" + ClauseText(c)
  {
    var head := (if first then "" else "and\n") + ClauseText(clauses[0]);
    var tail := ClauseText(c);
    assert (clauses + [c])[0] == clauses[0];
    assert (clauses + [c])[1..] == clauses[1..] + [c];
    assert Render(clauses + [c], first) == head + Render(clauses[1..] + [c], false);
    assert Render(clauses, first) == head + Render(clauses[1..], false);
    if |clauses| == 1 {
      assert clauses[1..] + [c] == [c];
      assert Render([c], false) == "and\n" + tail + Render([], false);
    } else {
      RenderAppend(clauses[1..], c, false);
    }
    Associative(head, Render(clauses[1..], false), "and\n", tail);
  }

  lemma Associative<T>(a: seq<T>, b: seq<T>, c: seq<T>, d: seq<T>)
    ensures a + (b + c + d) == a + b + c + d
  {
  }

  class KeywordExpression {
    var clauses: seq<Clause>

    /** The list always holds at least one clause. */
    ghost predicate Valid()
      reads this
    {
      |clauses| >= 1
    }

    /** A fresh expression holds one empty clause. */
    constructor ()
      ensures Valid() && clauses == [[]]
    {
      clauses := [[]];
    }

    /** Adds the literal to the last clause (the source's documentation says
        the first, its code uses the last). */
    method AddLiteral(symbol: string, negated: bool)
      requires Valid()
      modifies this
      ensures Valid() && |clauses| == |old(clauses)|
      ensures clauses[..|clauses| - 1] == old(clauses)[..|clauses| - 1]
      ensures clauses[|clauses| - 1] == old(clauses)[|clauses| - 1] + [Literal(symbol, negated)]
    {
      var n := |clauses|;
      clauses := clauses[..n - 1] + [clauses[n - 1] + [Literal(symbol, negated)]];
    }

    /** Appends an empty clause. */
    method AddClause()
      modifies this
      ensures clauses == old(clauses) + [[]]
      ensures Valid()
    {
      clauses := clauses + [[]];
    }

    /** Removes the last clause; an expression left empty gets one empty
        clause back. */
    method DeleteLastClause()
      modifies this
      ensures Valid()
      ensures |old(clauses)| > 1 ==> clauses == old(clauses)[..|old(clauses)| - 1]
      ensures |old(clauses)| <= 1 ==> clauses == [[]]
    {
      if clauses != [] {
        clauses := clauses[..|clauses| - 1];
      }
      if clauses == [] {
        AddClause();
      }
    }

    /** Resets the expression to one empty clause. */
    method Clear()
      modifies this
      ensures Valid() && clauses == [[]]
    {
      clauses := [];
      AddClause();
    }

    /** checkKeywords: whether a photo with these keywords passes. */
    function CheckKeywords(photoKeywords: seq<string>): (r: bool)
      reads this
      ensures r <==> Satisfies(clauses, photoKeywords)
    {
      AcceptsMeaning(clauses, photoKeywords);
      Accepts(clauses, photoKeywords)
    }

    /** equals: structural, clause by clause and literal by literal. */
    function Equals(other: KeywordExpression?): (r: bool)
      reads this, other
      ensures r <==> other != null && SameStructure(clauses, other.clauses)
    {
      if other == null then false
      else
        StructuralEquality(clauses, other.clauses);
        clauses == other.clauses
    }

    /** toString. */
    function ToString(): (s: string)
      reads this
      ensures clauses == [[]] ==> s == "  true\n"
    {
      RenderEmptyExpression();
      Render(clauses, true)
    }
  }

}
