/** What adding a filter does to a query's meaning. */
module FilterMeaning {
  import opened Wrappers
  import opened Syntax
  import opened Locality
  import opened Rewrite
  import opened RewriteText
  import opened SelectionText
  import opened Semantics
  import opened SelectionMeaning
  import opened FilterText

  /** The clauses of a query that a filter narrows, up to places. */
  lemma FilteredClauses(query: string, root: Option<Node>, field: string, value: string, exclude: bool)
      returns (next: Option<Node>)
    requires Parse(query) == Success(root) && Admitted(field) && ReadsAsItself(field)
    requires FilterHolds(query, root, field, value, exclude)
    ensures WithFilter(query, field, value, exclude).Success?
    ensures Parse(WithFilter(query, field, value, exclude).value) == Success(next)
    ensures EraseAll(Conjuncts(next)) == EraseAll(Conjuncts(root)) + [FilterTree(field, value, exclude)]
  {
    hide Parse, Conjuncts, Erase, JoinedClauses, CutFrom, Swallows, FilterTree, IntendedClauses, FilterClause,
         WithFilter, ReadsAsItself, Admitted;
    AddFilterTheorem(query, root, field, value, exclude);
    var kept, clause := Conjuncts(root), FilterClause(field, value, exclude);
    var x: Node :| x.pos == 0 && Erase(x) == FilterTree(field, value, exclude) && Reproduces(query, kept, clause, x);
    next := Parse(JoinedClauses(query, kept, clause)).value;
    IntendedErased(query, kept, clause, x);
    FilterHasText(field, value, exclude);
    assert EraseAll(ExtraNode(clause, x)) == [FilterTree(field, value, exclude)];
  }

  /** No unpaired backslash ends the query's last clause. */
  ghost predicate FilterHolds(query: string, root: Option<Node>, field: string, value: string, exclude: bool)
    requires Parse(query) == Success(root)
  {
    ConjunctsCutFrom(query, root);
    !Swallows(query, Conjuncts(root), FilterClause(field, value, exclude))
  }

  lemma FilterHasText(field: string, value: string, exclude: bool)
    ensures FilterClause(field, value, exclude) != ""
  {
    assert |FilterClause(field, value, exclude)| >= 1;
  }

  lemma FilterErased(field: string, value: string, exclude: bool)
    ensures Erase(FilterTree(field, value, exclude)) == FilterTree(field, value, exclude)
  {
  }

  /** Adding a filter narrows the rows by exactly its term: on every row the new
      query is as true as the conjunction of the old one's clauses and the term. */
  lemma AddFilterPreservesMeaning(query: string, root: Option<Node>, field: string, value: string, exclude: bool,
                                  row: Row, nums: Numbers)
    requires Parse(query) == Success(root) && Admitted(field) && ReadsAsItself(field)
    requires FilterHolds(query, root, field, value, exclude)
    ensures WithFilter(query, field, value, exclude).Success?
    ensures var r := Parse(WithFilter(query, field, value, exclude).value);
            && r.Success?
            && RootMeaning(r.value, row, nums) ==
               KAll(Meanings(Conjuncts(root), row, nums) + [Meaning(FilterTree(field, value, exclude), row, nums)])
  {
    hide Parse, Conjuncts, Erase, Meaning, WithFilter, FilterTree, KAll, RootMeaning, Admitted, ReadsAsItself, FilterHolds;
    var next := FilteredClauses(query, root, field, value, exclude);
    ConjunctsMean(next, row, nums);
    var tree := [FilterTree(field, value, exclude)];
    FilterErased(field, value, exclude);
    assert EraseAll(tree) == tree;
    EraseConcat(Conjuncts(root), tree);
    ErasedMeaningsAgree(Conjuncts(next), Conjuncts(root) + tree, row, nums);
    MeaningsConcat(Conjuncts(root), tree, row, nums);
    assert Meanings(tree, row, nums) == [Meaning(FilterTree(field, value, exclude), row, nums)];
  }
}
