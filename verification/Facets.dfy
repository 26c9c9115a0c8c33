/** The facet checkboxes: the selection read out of a query agrees with the
    rows the query keeps and with the selection that was written into it. */
module Facets {
  import opened Wrappers
  import opened Text
  import opened Syntax
  import opened Locality
  import opened Quoting
  import opened FieldClauses
  import opened Levels
  import opened Rewrite
  import opened SelectionText
  import opened SelectionMeaning

  /** Whether a facet value's box is checked. */
  predicate IsSelected(sel: Selection, value: string) {
    match sel.mode
    case SelectAll => true
    case SelectInclude => value in sel.values
    case SelectExclude => value !in sel.values
    case SelectCustom => false
  }

  /** The shortest selection for the checked values. */
  function NextSelection(values: seq<string>, checked: seq<string>): Selection {
    var unchecked := Filter(values, checked, false);
    if |unchecked| == 0 then Selection(SelectAll, [])
    else if |checked| > 0 && |unchecked| < |checked| then Selection(SelectExclude, unchecked)
    else Selection(SelectInclude, checked)
  }

  lemma {:induction false} FilterHas(values: seq<string>, others: seq<string>, among: bool)
    ensures forall v :: v in Filter(values, others, among) <==> v in values && (v in others) == among
  {
    if values != [] {
      FilterHas(values[1..], others, among);
    }
  }

  /** The next selection checks exactly the checked values. */
  lemma NextSelectionChecks(values: seq<string>, checked: seq<string>)
    ensures forall v :: v in values ==> (IsSelected(NextSelection(values, checked), v) <==> v in checked)
  {
    hide Filter;
    FilterHas(values, checked, false);
    var unchecked := Filter(values, checked, false);
    assert |unchecked| > 0 || forall v :: v !in unchecked;
  }

  // ----- reading a selection back

  lemma ErasedFacetValues(n: Node)
    ensures FacetValues(Erase(n)) == FacetValues(n)
  {
    hide ContainsAny;
    var ts, es := TermsIn(n), TermsIn(Erase(n));
    assert es == EraseAll(ts) by { ErasedTerms(n); }
    assert forall i :: 0 <= i < |ts| ==> IsLiteral(es[i]) == IsLiteral(ts[i]);
    if forall i | 0 <= i < |ts| :: IsLiteral(ts[i]) {
      assert seq(|es|, i requires 0 <= i < |es| => es[i].value) == seq(|ts|, i requires 0 <= i < |ts| => ts[i].value);
    }
  }

  lemma ErasedTerms(n: Node)
    ensures TermsIn(Erase(n)) == EraseAll(TermsIn(n))
  {
    var inner := if n.Not? then n.child else n;
    if inner.Or? {
      assert Erase(inner).children == EraseAll(inner.children);
    } else {
      assert EraseAll([inner]) == [Erase(inner)];
    }
  }

  lemma ErasedCollectOne(c: Collected, n: Node, field: string, aliases: seq<string>)
    ensures CollectOne(c, Erase(n), field, aliases) == CollectOne(c, n, field, aliases)
  {
    hide OnField, OffField, FacetValues, NormalizedValues, Erase;
    ErasedField(n, aliases);
    ErasedFacetValues(n);
  }

  lemma {:induction false} ErasedCollect(c: Collected, ns: seq<Node>, field: string, aliases: seq<string>)
    ensures Collect(c, EraseAll(ns), field, aliases) == Collect(c, ns, field, aliases)
    decreases |ns|
  {
    hide CollectOne, Erase;
    if ns != [] {
      ErasedCollectOne(c, ns[0], field, aliases);
      assert EraseAll(ns)[0] == Erase(ns[0]) && EraseAll(ns)[1..] == EraseAll(ns[1..]);
      if CollectOne(c, ns[0], field, aliases).Some? {
        ErasedCollect(CollectOne(c, ns[0], field, aliases).value, ns[1..], field, aliases);
      }
    }
  }

  /** Clauses that are not on the field alone say nothing, or make it custom. */
  lemma {:induction false} CollectKept(c: Collected, kept: seq<Node>, rest: seq<Node>, field: string, aliases: seq<string>)
    requires forall n :: n in kept ==> FieldUse(n, aliases) != FieldOnly
    ensures Collect(c, kept + rest, field, aliases) ==
            if exists n :: n in kept && FieldUse(n, aliases) == FieldMixed then None
            else Collect(c, rest, field, aliases)
    decreases |kept|
  {
    hide FieldUse, FacetValues, NormalizedValues;
    if kept == [] {
      assert kept + rest == rest;
    } else {
      assert (kept + rest)[1..] == kept[1..] + rest;
      assert kept[0] in kept;
      if FieldUse(kept[0], aliases) == FieldUnused {
        CollectKept(c, kept[1..], rest, field, aliases);
        assert forall n :: n in kept <==> n == kept[0] || n in kept[1..];
      }
    }
  }

  /** What the clause for a selection reads back as. */
  function ReadBack(field: string, sel: Selection): Selection {
    var values := NormalizedValues(field, sel.values);
    if !HasClause(sel) then Selection(SelectAll, [])
    else if sel.values == [] then Selection(SelectInclude, [])
    else if "*" in values then Selection(if sel.mode.SelectExclude? then SelectInclude else SelectAll, [])
    else Selection(sel.mode, values)
  }

  lemma ExactTermsAreFacets(field: string, values: seq<string>)
    requires values != []
    ensures FacetValues(FieldTree(field, values)) == Some(FacetTerms(false, values))
    ensures FacetValues(Not(0, 0, false, FieldTree(field, values))) == Some(FacetTerms(true, values))
  {
    hide NeedsQuotes, ContainsAny;
    var t := FieldTree(field, values);
    var ts := TermsIn(t);
    assert ts == ExactTerms(field, values);
    forall i | 0 <= i < |ts|
      ensures IsLiteral(ts[i])
    {
      if !NeedsQuotes(values[i]) {
        BareIsTerm(values[i]);
      }
    }
    assert seq(|ts|, i requires 0 <= i < |ts| => ts[i].value) == values;
    assert TermsIn(Not(0, 0, false, t)) == ts;
  }

  lemma CollectSingle(c: Collected, next: Collected, n: Node, field: string, aliases: seq<string>)
    requires CollectOne(c, n, field, aliases) == Some(next)
    ensures Collect(c, [n], field, aliases) == Some(next)
  {
    hide CollectOne;
    assert [n][1..] == [];
    assert Collect(next, [], field, aliases) == Some(next);
  }

  lemma SelectionTreeReadsBack(field: string, sel: Selection)
    requires Aliases(field).Some? && HasClause(sel)
    ensures SelectionIn([SelectionTree(field, sel)], field, Aliases(field).value) == ReadBack(field, sel)
  {
    hide FieldTree, FacetValues, FieldUse, NormalizedValues, Filter, Collect;
    var aliases, tree := Aliases(field).value, SelectionTree(field, sel);
    var empty := Collected([], [], false);
    SelectionOnField(field, sel);
    var values := NormalizedValues(field, sel.values);
    if sel.values == [] {
      StarReadsBack(field);
      assert "*" in ["*"];
      CollectSingle(empty, Collected([], [], true), tree, field, aliases);
    } else {
      ExactTermsAreFacets(field, sel.values);
      NormalizedNotEmpty(field, sel.values);
      FilterNothing(values);
      var next :=
        if "*" in values then (if sel.mode.SelectExclude? then empty.(none := true) else empty)
        else if sel.mode.SelectExclude? then empty.(excludes := [] + values)
        else empty.(includes := [] + [values]);
      CollectSingle(empty, next, tree, field, aliases);
      assert [] + values == values && [] + [values] == [values] && [values][1..] == [];
      assert Intersect(values, []) == values;
    }
  }

  lemma StarReadsBack(field: string)
    ensures FacetValues(Not(0, 0, false, Term(0, 0, false, field, "*", false))) == Some(FacetTerms(true, ["*"]))
    ensures NormalizedValues(field, ["*"]) == ["*"]
  {
    var n := Not(0, 0, false, Term(0, 0, false, field, "*", false));
    assert TermsIn(n) == [n.child];
    assert seq(1, i requires 0 <= i < 1 => TermsIn(n)[i].value) == ["*"];
    assert ["*"][..0] == [];
  }

  lemma {:induction false} FilterNothing(values: seq<string>)
    ensures Filter(values, [], false) == values
  {
    if values != [] {
      FilterNothing(values[1..]);
    }
  }

  lemma {:induction false} NormalizedNotEmpty(field: string, values: seq<string>)
    ensures values != [] ==> NormalizedValues(field, values) != []
  {
    hide FacetLevel;
  }

  /** A selection that its clause states without loss. */
  predicate Faithful(field: string, sel: Selection) {
    match sel.mode
    case SelectAll => sel.values == []
    case SelectInclude => "*" !in sel.values && NormalizedValues(field, sel.values) == sel.values
    case SelectExclude =>
      sel.values != [] && "*" !in sel.values && NormalizedValues(field, sel.values) == sel.values
    case SelectCustom => false
  }

  lemma ReadBackFaithful(field: string, sel: Selection)
    requires !sel.mode.SelectCustom?
    ensures ReadBack(field, sel) == sel <==> Faithful(field, sel)
  {
    hide FacetLevel;
    StarStays(field, sel.values);
  }

  lemma {:induction false} StarStays(field: string, values: seq<string>)
    ensures "*" in NormalizedValues(field, values) <==> "*" in values
  {
    hide FacetLevel;
    if field == "level" && values != [] {
      var last := |values| - 1;
      StarStays(field, values[..last]);
      FacetLevelStar(values[last]);
      assert values == values[..last] + [values[last]];
    }
  }

  lemma FacetLevelStar(value: string)
    ensures FacetLevel(value) == "*" <==> value == "*"
  {
    hide Upper, Lower;
    BucketsPartition(Upper(value), BucketName(value));
  }

  /** Selection round trip: reading the selection out of the rewritten query
      gives back the one written, exactly when its clause states it without
      loss; a clause that mixes fields makes it custom. */
  lemma SelectionRoundTrip(query: string, root: Option<Node>, field: string, sel: Selection)
    requires Aliases(field).Some? && !sel.mode.SelectCustom? && Parse(query) == Success(root)
    requires SelectionHolds(query, root, field, sel)
    ensures WithSelection(query, field, sel).Success?
    ensures var back := SelectionFrom(WithSelection(query, field, sel).value, field);
            if exists n :: n in Conjuncts(root) && FieldUse(n, Aliases(field).value) == FieldMixed then
              back == Success(Selection(SelectCustom, []))
            else back == Success(ReadBack(field, sel)) && (back == Success(sel) <==> Faithful(field, sel))
  {
    hide Parse, Conjuncts, KeptClauses, Erase, SelectionHolds, WithSelection, SelectionTree, FieldUse, Collect,
         HasClause, ReadBack, Faithful;
    var aliases := Aliases(field).value;
    var next := SelectedClauses(query, root, field, sel);
    var kept := KeptClauses(Conjuncts(root), aliases);
    KeptAreClauses(Conjuncts(root), aliases);
    var tree := if HasClause(sel) then [SelectionTree(field, sel)] else [];
    var empty := Collected([], [], false);
    ErasedCollect(empty, Conjuncts(next), field, aliases);
    TreeErased(field, sel);
    assert EraseAll(tree) == tree;
    EraseConcat(kept, tree);
    ErasedCollect(empty, kept + tree, field, aliases);
    CollectKept(empty, kept, tree, field, aliases);
    ReadBackFaithful(field, sel);
    if HasClause(sel) {
      SelectionTreeReadsBack(field, sel);
    } else {
      NothingReadsBack(field, sel, aliases);
    }
  }

  lemma NothingReadsBack(field: string, sel: Selection, aliases: seq<string>)
    requires !HasClause(sel)
    ensures SelectionIn([], field, aliases) == ReadBack(field, sel)
  {
  }
}
