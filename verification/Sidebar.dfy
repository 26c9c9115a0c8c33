/** From a click on a checkbox to the rows that are shown. */
module Sidebar {
  import opened Wrappers
  import opened Syntax
  import opened Levels
  import opened Like
  import opened Quoting
  import opened FieldClauses
  import opened Rewrite
  import opened SelectionText
  import opened Semantics
  import opened Where
  import opened SelectionMeaning
  import opened Facets
  import opened FacetRows
  import opened Readings
  import opened Checkboxes
  import Text

  // ----- a selection's clause means the selection

  lemma LowercaseIsBare(s: string)
    requires s != "" && forall i :: 0 <= i < |s| ==> 'a' <= s[i] <= 'z'
    ensures !NeedsQuotes(s)
  {
    assert 'a' <= s[0] <= 'z';
    assert "AND"[0] == 'A' && "OR"[0] == 'O' && "NOT"[0] == 'N';
    assert "-"[0] == '-' && "["[0] == '[' && ">"[0] == '>' && "<"[0] == '<';
    forall c | c in s ensures c !in SPECIAL {
      var i :| 0 <= i < |s| && s[i] == c;
    }
  }

  lemma BucketsAreLowercase(bucket: string)
    requires bucket in LEVEL_BUCKETS
    ensures bucket != "" && forall i :: 0 <= i < |bucket| ==> 'a' <= bucket[i] <= 'z'
  {
  }

  lemma BucketsAreNames(bucket: string)
    requires bucket in LEVEL_BUCKETS
    ensures LevelsForBucket(bucket) != [] || IsCatchAllLevel(bucket)
  {
    hide Text.Lower;
    BucketsAreLowercase(bucket);
    LowerFixed(bucket);
  }

  lemma BucketSaysItself(field: string, bucket: string)
    requires field == "level" && bucket in LEVEL_BUCKETS && bucket != "*"
    ensures SaysItself(field, ExactTerm(field, bucket))
  {
    hide NeedsQuotes, LevelsForBucket, IsCatchAllLevel;
    BucketsAreLowercase(bucket);
    LowercaseIsBare(bucket);
    BucketsAreNames(bucket);
  }

  /** No value but the row's own service is a spelling of it. */
  predicate SpelledAlone(field: string, values: seq<string>, row: Row) {
    field == "service" ==> forall v | v in values :: SameText(v, row.job) ==> v == row.job
  }

  lemma TermsAreStraight(field: string, values: seq<string>, row: Row)
    requires Aliases(field).Some? && values != [] && Canonical(field, values) && SpelledAlone(field, values, row)
    ensures var ts := TermsIn(FieldTree(field, values));
            AllTerms(ts) && forall t | t in ts :: Straight(field, t, row)
  {
    hide SaysItself, SameText, NeedsQuotes;
    var ts := TermsIn(FieldTree(field, values));
    assert ts == ExactTerms(field, values);
    forall t | t in ts ensures t.Term? && Straight(field, t, row) {
      var i :| 0 <= i < |ts| && ts[i] == t;
      assert t == ExactTerm(field, values[i]) && values[i] in values;
      if field == "level" {
        BucketSaysItself(field, values[i]);
      }
    }
  }

  lemma TreeReadsTrue(field: string, sel: Selection, row: Row)
    requires Aliases(field).Some? && HasClause(sel) && Canonical(field, sel.values) && SpelledAlone(field, sel.values, row)
    requires sel.values == [] ==> HasField(field, row)
    ensures ReadsTrue(field, SelectionTree(field, sel), row)
  {
    hide Straight, Canonical, SpelledAlone, Exact, FieldTree;
    var n := SelectionTree(field, sel);
    if sel.values == [] {
      assert TermsIn(n) == [n.child];
      assert Straight(field, n.child, row) by { StarIsStraight(field, n.child, row); }
    } else {
      TermsAreStraight(field, sel.values, row);
      NoBareStars(field, sel.values);
      NegatedTerms(FieldTree(field, sel.values), sel.values, field);
    }
  }

  lemma NoBareStars(field: string, values: seq<string>)
    requires Canonical(field, values) && values != []
    ensures forall t | t in TermsIn(FieldTree(field, values)) :: !BareStar(t)
  {
    assert TermsIn(FieldTree(field, values)) == ExactTerms(field, values);
  }

  lemma StarIsStraight(field: string, t: Node, row: Row)
    requires BareStar(t)
    ensures Straight(field, t, row)
  {
  }

  lemma NegatedTerms(tree: Node, values: seq<string>, field: string)
    requires tree == FieldTree(field, values) && values != []
    ensures TermsIn(Not(0, 0, false, tree)) == TermsIn(tree)
  {
  }

  /** The clause of a selection is true of a row exactly when the selection checks
      the row's value. */
  lemma SelectionTreeMeans(field: string, sel: Selection, row: Row, nums: Numbers)
    requires Aliases(field).Some? && HasClause(sel) && Faithful(field, sel)
    requires Canonical(field, sel.values) && SpelledAlone(field, sel.values, row)
    requires sel.values == [] ==> HasField(field, row)
    ensures Meaning(SelectionTree(field, sel), row, nums) == True <==> IsSelected(sel, RowValue(field, row))
  {
    hide Canonical, SpelledAlone, HasField, Meaning, SelectionTree, IsSelected, RowValue, ReadsTrue, ReadBack, SelectionIn,
         FieldUse, HasClause, Faithful;
    var n, aliases := SelectionTree(field, sel), Aliases(field).value;
    TreeReadsTrue(field, sel, row);
    SelectionOnField(field, sel);
    SelectionTreeReadsBack(field, sel);
    FaithfulIsSet(field, sel);
    ReadBackFaithful(field, sel);
    OnlyIt(n, aliases);
    SelectionSound([n], field, row, nums);
    assert n in [n];
    assert AllTrue([n], row, nums) <==> Meaning(n, row, nums) == True;
  }

  lemma FaithfulIsSet(field: string, sel: Selection)
    requires Faithful(field, sel)
    ensures !sel.mode.SelectCustom?
  {
  }

  lemma OnlyIt(n: Node, aliases: seq<string>)
    requires FieldUse(n, aliases) == FieldOnly
    ensures OnlyClauses([n], aliases) == [n]
  {
    hide FieldUse;
    assert [n][1..] == [];
  }

  // ----- the rows after a click

  lemma NextValues(values: seq<string>, checked: seq<string>)
    requires forall v :: v in checked ==> v in values
    ensures forall v :: v in NextSelection(values, checked).values ==> v in values
  {
    hide Filter;
    FilterHas(values, checked, false);
  }

  lemma NextCanonical(field: string, values: seq<string>, checked: seq<string>)
    requires Canonical(field, values) && Canonical(field, checked)
    ensures Canonical(field, NextSelection(values, checked).values)
  {
    hide Filter;
    FilterCanonical(field, values, checked, false);
  }

  lemma FewerSpellings(field: string, values: seq<string>, some: seq<string>, row: Row)
    requires SpelledAlone(field, values, row) && forall v :: v in some ==> v in values
    ensures SpelledAlone(field, some, row)
  {
    hide SameText;
  }

  /** The selection that a click on a box writes. */
  function Clicked(values: seq<string>, value: string, before: Selection): Selection {
    NextSelection(values, Toggled(Checked(values, before), value))
  }

  lemma ClickedSelects(field: string, values: seq<string>, value: string, before: Selection, row: Row)
    requires Canonical(field, values) && value in values && SpelledAlone(field, values, row)
    ensures var next := Clicked(values, value, before);
            && Faithful(field, next) && Canonical(field, next.values) && SpelledAlone(field, next.values, row)
            && forall v :: v in values ==>
                 (IsSelected(next, v) <==> if v == value then !IsSelected(before, v) else IsSelected(before, v))
  {
    hide Canonical, SpelledAlone, Faithful, IsSelected, NextSelection, Checked, Toggled;
    var checked := Checked(values, before);
    CheckedHas(values, before);
    CheckedCanonical(field, values, before);
    ToggledCanonical(field, values, checked, value);
    var after := Toggled(checked, value);
    NextIsFaithful(field, values, after);
    NextCanonical(field, values, after);
    NextSelectionChecks(values, after);
    NextValues(values, after);
    FewerSpellings(field, values, NextSelection(values, after).values, row);
  }

  /** After a click a listed row, one that has the field if the click leaves no box
      checked, is shown exactly when the query's other clauses
      are true of it and its own box is checked: turned if it is the box clicked,
      and as it was otherwise. */
  lemma ClickShowsRows(query: string, root: Option<Node>, field: string, values: seq<string>, value: string,
                       before: Selection, row: Row, nums: Numbers)
    requires Aliases(field).Some? && Parse(query) == Success(root) && SelectionFrom(query, field) == Success(before)
    requires Canonical(field, values) && value in values
    requires var next := Clicked(values, value, before);
             !next.mode.SelectCustom? && SelectionHolds(query, root, field, next)
    requires RowValue(field, row) in values && SpelledAlone(field, values, row)
    requires Clicked(values, value, before) == Selection(SelectInclude, []) ==> HasField(field, row)
    ensures var out := WithSelection(query, field, Clicked(values, value, before));
            var mine := RowValue(field, row);
            && out.Success?
            && (Keeps(out.value, row, nums) <==>
                && AllTrue(KeptClauses(Conjuncts(root), Aliases(field).value), row, nums)
                && if mine == value then !IsSelected(before, mine) else IsSelected(before, mine))
  {
    hide Parse, Conjuncts, SelectionHolds, WithSelection, SelectionFrom, FieldUse, IsSelected, Clicked, Canonical,
         SpelledAlone, RowValue, HasField, Meaning, SelectionTree, KAll, RootMeaning, KeptClauses, HasClause, Faithful,
         AllTrue;
    var next, kept := Clicked(values, value, before), KeptClauses(Conjuncts(root), Aliases(field).value);
    ClickedSelects(field, values, value, before, row);
    SetSelectionPreservesMeaning(query, root, field, next, row, nums);
    TruthsAppend(Meanings(kept, row, nums), SelectionTruth(field, next, row, nums));
    AllTrueMeans(kept, row, nums);
    SelectionTruthMeans(field, next, row, nums);
  }

  lemma SelectionTruthMeans(field: string, sel: Selection, row: Row, nums: Numbers)
    requires Aliases(field).Some? && Faithful(field, sel)
    requires Canonical(field, sel.values) && SpelledAlone(field, sel.values, row)
    requires sel == Selection(SelectInclude, []) ==> HasField(field, row)
    ensures KAll(SelectionTruth(field, sel, row, nums)) == True <==> IsSelected(sel, RowValue(field, row))
  {
    hide Meaning, SelectionTree, RowValue, HasField, Canonical, SpelledAlone;
    if HasClause(sel) {
      SelectionTreeMeans(field, sel, row, nums);
      KAllOne(Meaning(SelectionTree(field, sel), row, nums));
    }
  }
}
