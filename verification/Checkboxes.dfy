/** The whole loop of the sidebar: boxes show the selection read from the query,
    a click writes the next selection into it. */
module Checkboxes {
  import opened Wrappers
  import opened Text
  import opened Syntax
  import opened Levels
  import opened Rewrite
  import opened SelectionMeaning
  import opened Facets

  /** The values a facet lists: each once, no star, and for levels buckets. */
  ghost predicate Canonical(field: string, values: seq<string>) {
    && (forall i, j :: 0 <= i < j < |values| ==> values[i] != values[j])
    && "*" !in values
    && (field == "level" ==> forall v :: v in values ==> v in LEVEL_BUCKETS)
  }

  lemma LowerFixed(s: string)
    requires forall i :: 0 <= i < |s| ==> !('A' <= s[i] <= 'Z')
    ensures Lower(s) == s
  {
  }

  /** A bucket name is its own facet value. */
  lemma BucketIsItsLevel(bucket: string)
    requires bucket in LEVEL_BUCKETS
    ensures FacetLevel(bucket) == bucket
  {
    hide Lower, BucketOfUpper, Upper;
    LowerFixed(bucket);
  }

  lemma {:induction false} CanonicalNormalizes(field: string, values: seq<string>)
    requires Canonical(field, values)
    ensures NormalizedValues(field, values) == values
  {
    hide FacetLevel, Canonical;
    if field == "level" && values != [] {
      var last := |values| - 1;
      CanonicalButLast(field, values);
      CanonicalNormalizes(field, values[..last]);
      BucketIsItsLevel(values[last]);
      assert values[..last] + [values[last]] == values;
    }
  }

  lemma CanonicalButLast(field: string, values: seq<string>)
    requires Canonical(field, values) && values != []
    ensures var last := |values| - 1;
            && Canonical(field, values[..last]) && values[last] !in values[..last]
            && (field == "level" ==> values[last] in LEVEL_BUCKETS)
  {
    assert values[|values| - 1] in values;
  }

  lemma CanonicalCons(field: string, values: seq<string>, value: string)
    requires Canonical(field, values)
    ensures Canonical(field, [value] + values) <==>
            value !in values && value != "*" && (field == "level" ==> value in LEVEL_BUCKETS)
  {
    var all := [value] + values;
    assert all[0] == value && all[1..] == values;
    assert forall v :: v in all <==> v == value || v in values;
    if value in values {
      var i :| 0 <= i < |values| && values[i] == value;
      assert all[i + 1] == value;
    }
  }

  lemma CanonicalRest(field: string, values: seq<string>)
    requires Canonical(field, values) && values != []
    ensures Canonical(field, values[1..])
  {
  }

  lemma {:induction false} FilterCanonical(field: string, values: seq<string>, others: seq<string>, among: bool)
    requires Canonical(field, values)
    ensures Canonical(field, Filter(values, others, among))
  {
    hide Canonical;
    if values != [] {
      CanonicalRest(field, values);
      FilterCanonical(field, values[1..], others, among);
      FilterHas(values[1..], others, among);
      var rest := Filter(values[1..], others, among);
      assert [values[0]] + values[1..] == values;
      CanonicalCons(field, values[1..], values[0]);
      CanonicalCons(field, rest, values[0]);
      assert [] + rest == rest;
    }
  }

  /** The values whose boxes are checked. */
  function Checked(values: seq<string>, sel: Selection): seq<string> {
    if values == [] then []
    else (if IsSelected(sel, values[0]) then [values[0]] else []) + Checked(values[1..], sel)
  }

  /** The checked values after a click on one box. */
  function Toggled(checked: seq<string>, value: string): seq<string> {
    if value in checked then Filter(checked, [value], false) else checked + [value]
  }

  lemma {:induction false} CheckedHas(values: seq<string>, sel: Selection)
    ensures forall v :: v in Checked(values, sel) <==> v in values && IsSelected(sel, v)
  {
    hide IsSelected;
    if values != [] {
      CheckedHas(values[1..], sel);
    }
  }

  lemma {:induction false} CheckedCanonical(field: string, values: seq<string>, sel: Selection)
    requires Canonical(field, values)
    ensures Canonical(field, Checked(values, sel))
  {
    hide IsSelected;
    if values != [] {
      assert Canonical(field, values[1..]);
      CheckedCanonical(field, values[1..], sel);
      CheckedHas(values[1..], sel);
      var rest := Checked(values[1..], sel);
      assert values[0] !in values[1..] && values[0] !in rest;
      assert values[0] in values;
      assert [] + rest == rest;
    }
  }

  lemma ToggledCanonical(field: string, values: seq<string>, checked: seq<string>, value: string)
    requires Canonical(field, values) && Canonical(field, checked) && value in values
    ensures Canonical(field, Toggled(checked, value))
    ensures forall v :: v in Toggled(checked, value) <==> if v == value then v !in checked else v in checked
  {
    hide Filter;
    if value in checked {
      FilterCanonical(field, checked, [value], false);
      FilterHas(checked, [value], false);
    }
  }

  lemma NextIsFaithful(field: string, values: seq<string>, checked: seq<string>)
    requires Canonical(field, values) && Canonical(field, checked)
    ensures !NextSelection(values, checked).mode.SelectCustom? && Faithful(field, NextSelection(values, checked))
  {
    hide Filter, NormalizedValues, Canonical;
    FilterCanonical(field, values, checked, false);
    CanonicalNormalizes(field, checked);
    CanonicalNormalizes(field, Filter(values, checked, false));
    NoStars(field, checked);
    NoStars(field, Filter(values, checked, false));
  }

  lemma NoStars(field: string, values: seq<string>)
    requires Canonical(field, values)
    ensures "*" !in values
  {
  }

  /** A click on a box flips that box and no other. */
  lemma ClickFlipsOneBox(query: string, root: Option<Node>, field: string, values: seq<string>, value: string,
                         before: Selection)
    requires Aliases(field).Some? && Parse(query) == Success(root) && SelectionFrom(query, field) == Success(before)
    requires Canonical(field, values) && value in values
    requires forall n :: n in Conjuncts(root) ==> FieldUse(n, Aliases(field).value) != FieldMixed
    requires var next := NextSelection(values, Toggled(Checked(values, before), value));
             !next.mode.SelectCustom? && SelectionHolds(query, root, field, next)
    ensures var next := NextSelection(values, Toggled(Checked(values, before), value));
            && WithSelection(query, field, next).Success?
            && var after := SelectionFrom(WithSelection(query, field, next).value, field);
               after.Success? && forall v :: v in values ==>
                 (IsSelected(after.value, v) <==> if v == value then !IsSelected(before, v) else IsSelected(before, v))
  {
    hide Parse, Conjuncts, SelectionHolds, WithSelection, SelectionFrom, FieldUse, IsSelected, NextSelection,
         Canonical, Checked, Toggled, Faithful;
    var checked := Checked(values, before);
    CheckedHas(values, before);
    CheckedCanonical(field, values, before);
    ToggledCanonical(field, values, checked, value);
    var next := NextSelection(values, Toggled(checked, value));
    NextIsFaithful(field, values, Toggled(checked, value));
    NextSelectionChecks(values, Toggled(checked, value));
    SelectionRoundTrip(query, root, field, next);
  }
}
