/** What rewriting a query does to its meaning. */
module SelectionMeaning {
  import opened Wrappers
  import opened Syntax
  import opened Locality
  import opened Clauses
  import opened FieldClauses
  import opened Rewrite
  import opened RewriteText
  import opened SelectionText
  import opened Semantics

  // ----- trees up to places and parentheses

  lemma {:induction false} PlacesErased(parts: seq<string>, cs: seq<Node>, at: int)
    requires |parts| == |cs|
    ensures EraseAll(Places(parts, cs, at)) == EraseAll(cs)
  {
    hide Shift, Erase;
    if parts != [] {
      PlacesErased(parts[1..], cs[1..], at + |parts[0]| + 1);
      EraseShift(cs[0], at);
      var rest := Places(parts[1..], cs[1..], at + |parts[0]| + 1);
      EraseConcat([Shift(cs[0], at)], rest);
      EraseConcat([cs[0]], cs[1..]);
      assert [cs[0]] + cs[1..] == cs;
    }
  }

  lemma EraseConcat(a: seq<Node>, b: seq<Node>)
    ensures EraseAll(a + b) == EraseAll(a) + EraseAll(b)
  {
  }

  lemma PartNodesErased(cs: seq<Node>, many: bool)
    ensures EraseAll(PartNodes(cs, many)) == EraseAll(cs)
  {
    hide Shift, Erase;
    forall i | 0 <= i < |cs|
      ensures Erase(PartNode(cs[i], many)) == Erase(cs[i])
    {
      EraseShift(cs[i], 1 - cs[i].pos);
      EraseShift(cs[i], -cs[i].pos);
      EraseGrouped(Shift(cs[i], 1 - cs[i].pos), 0, cs[i].end - cs[i].pos + 2);
    }
  }

  /** The intended clauses are the kept ones and the extra one. */
  lemma IntendedErased(query: string, kept: seq<Node>, extra: string, x: Node)
    requires AllInText(query, kept)
    ensures EraseAll(IntendedClauses(query, kept, extra, x)) == EraseAll(kept) + EraseAll(ExtraNode(extra, x))
  {
    hide Erase, Places;
    var many := |kept| + |Extra(extra)| > 1;
    PlacesErased(PartsOf(query, kept, many) + Extra(extra), PartNodes(kept, many) + ExtraNode(extra, x), 0);
    PartNodesErased(kept, many);
    EraseConcat(PartNodes(kept, many), ExtraNode(extra, x));
  }

  lemma ErasedMeaningsAgree(a: seq<Node>, b: seq<Node>, row: Row, nums: Numbers)
    requires EraseAll(a) == EraseAll(b)
    ensures Meanings(a, row, nums) == Meanings(b, row, nums)
  {
    hide Erase, Meaning;
    forall i | 0 <= i < |a|
      ensures |a| == |b| && Meaning(a[i], row, nums) == Meaning(b[i], row, nums)
    {
      assert EraseAll(a)[i] == EraseAll(b)[i];
      ErasedMeaning(a[i], row, nums);
      ErasedMeaning(b[i], row, nums);
    }
    assert |EraseAll(a)| == |EraseAll(b)|;
  }

  // ----- setting a selection, on rows

  /** The clause that states a selection, as a truth; none when there is none. */
  ghost function SelectionTruth(field: string, sel: Selection, row: Row, nums: Numbers): seq<Truth> {
    if HasClause(sel) then [Meaning(SelectionTree(field, sel), row, nums)] else []
  }

  /** The erased clauses of a query after setting a selection. */
  lemma SelectedClauses(query: string, root: Option<Node>, field: string, sel: Selection) returns (next: Option<Node>)
    requires Aliases(field).Some? && !sel.mode.SelectCustom? && Parse(query) == Success(root)
    requires SelectionHolds(query, root, field, sel)
    ensures WithSelection(query, field, sel).Success?
    ensures Parse(WithSelection(query, field, sel).value) == Success(next)
    ensures EraseAll(Conjuncts(next)) ==
            EraseAll(KeptClauses(Conjuncts(root), Aliases(field).value)) +
            if HasClause(sel) then [SelectionTree(field, sel)] else []
  {
    hide Parse, Conjuncts, KeptClauses, Erase, JoinedClauses, CutFrom, Swallows, Vanishes, SelectionTree, IntendedClauses;
    var x := SetSelectionTheorem(query, root, field, sel);
    var kept := KeptClauses(Conjuncts(root), Aliases(field).value);
    var clause := SelectionClause(field, sel).value;
    next := Parse(JoinedClauses(query, kept, clause)).value;
    IntendedErased(query, kept, clause, x);
    assert EraseAll(ExtraNode(clause, x)) == if HasClause(sel) then [SelectionTree(field, sel)] else [];
  }

  /** The condition under which setting a selection does what it is for. */
  ghost predicate SelectionHolds(query: string, root: Option<Node>, field: string, sel: Selection)
    requires Aliases(field).Some? && !sel.mode.SelectCustom? && Parse(query) == Success(root)
  {
    KeptCutFrom(query, root, Aliases(field).value);
    var kept := KeptClauses(Conjuncts(root), Aliases(field).value);
    var clause := SelectionClause(field, sel).value;
    !Swallows(query, kept, clause) && !Vanishes(query, kept, clause)
  }

  /** Setting a selection preserves meaning: on every row the new query is as
      true as the conjunction of the clauses that were not on the field alone
      and the clause for the selection. */
  lemma SetSelectionPreservesMeaning(query: string, root: Option<Node>, field: string, sel: Selection,
                                     row: Row, nums: Numbers)
    requires Aliases(field).Some? && !sel.mode.SelectCustom? && Parse(query) == Success(root)
    requires SelectionHolds(query, root, field, sel)
    ensures WithSelection(query, field, sel).Success?
    ensures var r := Parse(WithSelection(query, field, sel).value);
            && r.Success?
            && RootMeaning(r.value, row, nums) ==
               KAll(Meanings(KeptClauses(Conjuncts(root), Aliases(field).value), row, nums)
                    + SelectionTruth(field, sel, row, nums))
  {
    hide Parse, Conjuncts, KeptClauses, Erase, Meaning, SelectionHolds, WithSelection, SelectionTree, KAll, RootMeaning;
    var next := SelectedClauses(query, root, field, sel);
    ConjunctsMean(next, row, nums);
    var kept := KeptClauses(Conjuncts(root), Aliases(field).value);
    var tree := if HasClause(sel) then [SelectionTree(field, sel)] else [];
    assert EraseAll(tree) == tree by { TreeErased(field, sel); }
    EraseConcat(kept, tree);
    ErasedMeaningsAgree(Conjuncts(next), kept + tree, row, nums);
    MeaningsConcat(kept, tree, row, nums);
    assert Meanings(tree, row, nums) == SelectionTruth(field, sel, row, nums);
  }

  lemma MeaningsConcat(a: seq<Node>, b: seq<Node>, row: Row, nums: Numbers)
    ensures Meanings(a + b, row, nums) == Meanings(a, row, nums) + Meanings(b, row, nums)
  {
    hide Meaning;
  }

  lemma TreeErased(field: string, sel: Selection)
    ensures HasClause(sel) ==> Erase(SelectionTree(field, sel)) == SelectionTree(field, sel)
  {
    FieldTreeErased(field, sel.values);
  }

  lemma FieldTreeErased(field: string, values: seq<string>)
    ensures Erase(FieldTree(field, values)) == FieldTree(field, values)
  {
    if |values| != 1 {
      assert EraseAll(ExactTerms(field, values)) == ExactTerms(field, values);
    }
  }

  // ----- which clauses test the field, up to places

  lemma {:induction false} ErasedField(n: Node, aliases: seq<string>)
    ensures OnField(Erase(n), aliases) == OnField(n, aliases) && OffField(Erase(n), aliases) == OffField(n, aliases)
    decreases n, 1
  {
    hide NormalizeField;
    match n
    case Not(_, _, _, child) => ErasedField(child, aliases);
    case And(_, _, _, cs) => ErasedFields(n, cs, aliases);
    case Or(_, _, _, cs) => ErasedFields(n, cs, aliases);
    case _ =>
  }

  lemma {:induction false} ErasedFields(n: Node, cs: seq<Node>, aliases: seq<string>)
    requires (n.And? || n.Or?) && n.children == cs
    ensures OnField(Erase(n), aliases) == OnField(n, aliases) && OffField(Erase(n), aliases) == OffField(n, aliases)
    decreases n, 0
  {
    hide NormalizeField;
    var es := Erase(n).children;
    forall i | 0 <= i < |cs|
      ensures OnField(es[i], aliases) == OnField(cs[i], aliases) && OffField(es[i], aliases) == OffField(cs[i], aliases)
    {
      ErasedField(cs[i], aliases);
    }
  }

  lemma {:induction false} ErasedKept(cs: seq<Node>, aliases: seq<string>)
    ensures EraseAll(KeptClauses(cs, aliases)) == KeptClauses(EraseAll(cs), aliases)
  {
    hide OnField, OffField, Erase;
    if cs != [] {
      ErasedField(cs[0], aliases);
      ErasedKept(cs[1..], aliases);
      assert EraseAll(cs)[1..] == EraseAll(cs[1..]);
      EraseConcat([cs[0]], KeptClauses(cs[1..], aliases));
      assert EraseAll([cs[0]]) == [Erase(cs[0])];
    }
  }

  lemma {:induction false} KeptAppend(a: seq<Node>, b: seq<Node>, aliases: seq<string>)
    ensures KeptClauses(a + b, aliases) == KeptClauses(a, aliases) + KeptClauses(b, aliases)
  {
    hide FieldUse;
    if a == [] {
      assert a + b == b;
    } else {
      assert (a + b)[1..] == a[1..] + b;
      KeptAppend(a[1..], b, aliases);
    }
  }

  lemma {:induction false} KeptTwice(cs: seq<Node>, aliases: seq<string>)
    ensures KeptClauses(KeptClauses(cs, aliases), aliases) == KeptClauses(cs, aliases)
  {
    hide FieldUse;
    if cs != [] {
      KeptTwice(cs[1..], aliases);
      var head := if FieldUse(cs[0], aliases) != FieldOnly then [cs[0]] else [];
      KeptAppend(head, KeptClauses(cs[1..], aliases), aliases);
    }
  }

  lemma FacetFieldNormal(field: string)
    requires Aliases(field).Some?
    ensures NormalizeField(field) == field && field in Aliases(field).value
  {
    assert field == "service" || field == "level";
  }

  /** The clause that states a selection tests the field and nothing else. */
  lemma SelectionOnField(field: string, sel: Selection)
    requires Aliases(field).Some? && HasClause(sel)
    ensures FieldUse(SelectionTree(field, sel), Aliases(field).value) == FieldOnly
  {
    hide NormalizeField;
    FacetFieldNormal(field);
    FieldTreeOnField(field, sel.values);
  }

  lemma FieldTreeOnField(field: string, values: seq<string>)
    requires Aliases(field).Some?
    ensures var t := FieldTree(field, values);
            values != [] ==> OnField(t, Aliases(field).value) && !OffField(t, Aliases(field).value)
  {
    hide NormalizeField;
    FacetFieldNormal(field);
    if |values| > 1 {
      assert OnField(ExactTerms(field, values)[0], Aliases(field).value);
    }
  }
}
