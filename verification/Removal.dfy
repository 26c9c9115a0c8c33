/** What it takes for setting a selection to leave a clause out, and what is lost
    with it. */
module Removal {
  import opened Wrappers
  import opened Text
  import opened Syntax
  import opened Rewrite
  import opened Semantics
  import opened Sequences
  import opened Columns
  import opened Reading
  import opened Narrowing
  import opened Where
  import opened SelectionMeaning

  // ----- the leaves of a clause

  predicate IsLeaf(n: Node) {
    n.Term? || n.Compare? || n.Range?
  }

  /** A term, comparison or range somewhere in a clause. */
  ghost predicate LeafOf(l: Node, n: Node)
    ensures LeafOf(l, n) ==> IsLeaf(l)
  {
    match n
    case Not(_, _, _, child) => LeafOf(l, child)
    case And(_, _, _, cs) => exists i | 0 <= i < |cs| :: LeafOf(l, cs[i])
    case Or(_, _, _, cs) => exists i | 0 <= i < |cs| :: LeafOf(l, cs[i])
    case _ => l == n
  }

  /** The names that may stand for a facet field in a query. */
  predicate FacetName(field: string, name: string) {
    (field == "service" && name in ["service", "job"]) || (field == "level" && name in ["level", "status"])
  }

  predicate LeafOn(l: Node, field: string)
    requires IsLeaf(l)
  {
    FacetName(field, NormalizeField(l.field))
  }

  /** The clause has leaves, and all of them are on the field. */
  ghost predicate AllOn(n: Node, field: string) {
    (exists l :: LeafOf(l, n)) && forall l :: LeafOf(l, n) ==> LeafOn(l, field)
  }

  lemma AliasesAreNames(field: string, name: string)
    requires Aliases(field).Some?
    ensures name in Aliases(field).value <==> FacetName(field, name)
  {
  }

  lemma {:induction false} FlagsMean(n: Node, field: string)
    requires Aliases(field).Some?
    ensures OnField(n, Aliases(field).value) <==> exists l :: LeafOf(l, n) && LeafOn(l, field)
    ensures OffField(n, Aliases(field).value) <==> exists l :: LeafOf(l, n) && !LeafOn(l, field)
    decreases n, 1
  {
    hide NormalizeField, FacetName, Aliases;
    match n
    case Not(_, _, _, child) => FlagsMean(child, field);
    case And(_, _, _, cs) => FlagsMeanAll(n, cs, field);
    case Or(_, _, _, cs) => FlagsMeanAll(n, cs, field);
    case _ =>
      AliasesAreNames(field, NormalizeField(n.field));
      assert LeafOf(n, n);
  }

  lemma {:induction false} FlagsMeanAll(n: Node, cs: seq<Node>, field: string)
    requires (n.And? || n.Or?) && n.children == cs && Aliases(field).Some?
    ensures OnField(n, Aliases(field).value) <==> exists l :: LeafOf(l, n) && LeafOn(l, field)
    ensures OffField(n, Aliases(field).value) <==> exists l :: LeafOf(l, n) && !LeafOn(l, field)
    decreases n, 0
  {
    hide LeafOn, Aliases;
    var names := Aliases(field).value;
    forall i | 0 <= i < |cs|
      ensures OnField(cs[i], names) <==> exists l :: LeafOf(l, cs[i]) && LeafOn(l, field)
      ensures OffField(cs[i], names) <==> exists l :: LeafOf(l, cs[i]) && !LeafOn(l, field)
    {
      FlagsMean(cs[i], field);
    }
    assert forall l :: LeafOf(l, n) <==> exists i :: 0 <= i < |cs| && LeafOf(l, cs[i]);
    assert OnField(n, names) <==> exists i :: 0 <= i < |cs| && OnField(cs[i], names);
    assert OffField(n, names) <==> exists i :: 0 <= i < |cs| && OffField(cs[i], names);
  }

  lemma UseMeans(n: Node, field: string)
    requires Aliases(field).Some?
    ensures FieldUse(n, Aliases(field).value) == FieldOnly <==> AllOn(n, field)
  {
    hide OnField, OffField, LeafOf, LeafOn;
    FlagsMean(n, field);
  }

  lemma {:induction false} KeptAreOnly(cs: seq<Node>, field: string)
    requires Aliases(field).Some?
    ensures KeptClauses(cs, Aliases(field).value) == Only(cs, (c: Node) => !AllOn(c, field))
  {
    hide FieldUse, AllOn, Aliases;
    if cs != [] {
      UseMeans(cs[0], field);
      KeptAreOnly(cs[1..], field);
    }
  }

  /** Setting a selection leaves out exactly the clauses with all leaves on the
      field, and keeps the others in their order. */
  lemma LeavesOutExactly(query: string, root: Option<Node>, field: string, sel: Selection)
    requires Parse(query) == Success(root) && Aliases(field).Some? && SelectionClause(field, sel).Success?
    ensures var kept := Only(Conjuncts(root), (c: Node) => !AllOn(c, field));
            && AllInText(query, kept)
            && WithSelection(query, field, sel) ==
               Success(JoinedClauses(query, kept, SelectionClause(field, sel).value))
  {
    hide Parse, Conjuncts, JoinedClauses, SelectionClause, AllOn, KeptClauses;
    ConjunctsInText(query, root);
    KeptInText(query, Conjuncts(root), Aliases(field).value);
    KeptAreOnly(Conjuncts(root), field);
  }

  // ----- what a leaf on the field reads

  /** A comparison of `status` or range of it reads an attribute of the line, and so
      does a range without bounds. */
  predicate ReadsAttribute(l: Node) {
    || ((l.Compare? || l.Range?) && NormalizeField(l.field) == "status")
    || (l.Range? && l.lower == "*" && l.upper == "*")
  }

  /** Rows that a facet field does not tell apart. */
  predicate SameValue(field: string, a: Row, b: Row) {
    (field == "service" ==> a.job == b.job) && (field == "level" ==> a.level == b.level)
  }

  ghost predicate Decided(field: string, n: Node) {
    forall a, b, nums :: SameValue(field, a, b) ==> Meaning(n, a, nums) == Meaning(n, b, nums)
  }

  lemma ColumnLeaf(l: Node, field: string, a: Row, b: Row, nums: Numbers)
    requires Aliases(field).Some? && IsLeaf(l) && LeafOn(l, field) && !ReadsAttribute(l) && SameValue(field, a, b)
    ensures Meaning(l, a, nums) == Meaning(l, b, nums)
  {
    hide NormalizeField, TextMeaning, LevelMeaning, AttributeText, TermMeaning, NumericText, KAll;
    if l.Term? {
      NamesMean(l.field);
      if field == "level" {
        LevelsMean(l.field, l.value, l.quoted, a);
        LevelsMean(l.field, l.value, l.quoted, b);
      }
    } else {
      NumbersRead(l.field, a);
      NumbersRead(l.field, b);
    }
  }

  const NOWHERE: Row := Row(0, 0, "", "", "", "", "", "", "", "", false, None)

  /** A line with the attribute at every place the field may name. */
  function WithAttribute(field: string): Row {
    NOWHERE.(json := Some(map[JsonPaths(field).0 := Some("1"), JsonPaths(field).1 := Some("1")]))
  }

  const ALL_HOLD: Numbers := Numbers(_ => true, (_, _, _) => true)

  lemma AttributeLeaf(l: Node, field: string)
    requires IsLeaf(l) && ReadsAttribute(l)
    ensures var f := if l.Range? && l.lower == "*" && l.upper == "*" then l.field else NormalizeField(l.field);
            Meaning(l, NOWHERE, ALL_HOLD) != Meaning(l, WithAttribute(f), ALL_HOLD)
  {
    hide NormalizeField, JsonPaths, KAll;
    if l.Range? && l.lower == "*" && l.upper == "*" {
      assert AttributePresent(WithAttribute(l.field), l.field);
      assert !AttributePresent(NOWHERE, l.field);
    } else {
      var f := NormalizeField(l.field);
      NumbersRead(l.field, NOWHERE);
      NumbersRead(l.field, WithAttribute(f));
      assert AttributeText(WithAttribute(f), f) == Some("1") && AttributeText(NOWHERE, f) == None;
      KAllAlike(True);
      KAllAlike(Unknown);
    }
  }

  lemma KAllAlike(t: Truth)
    ensures KAll([t]) == t && KAll([t, t]) == t && KAll([] + [t]) == t && KAll([t] + []) == t && KAll([t] + [t]) == t
  {
    assert [] + [t] == [t] == [t] + [] && [t] + [t] == [t, t];
    assert t in [t] && t in [t, t];
  }

  /** A leaf on a field is decided by the row's service or level exactly when it
      reads no attribute. */
  lemma LeafDecided(l: Node, field: string)
    requires Aliases(field).Some? && IsLeaf(l) && LeafOn(l, field)
    ensures Decided(field, l) <==> !ReadsAttribute(l)
  {
    hide Meaning, ReadsAttribute, LeafOn, Aliases;
    if ReadsAttribute(l) {
      AttributeLeaf(l, field);
      var f := if l.Range? && l.lower == "*" && l.upper == "*" then l.field else NormalizeField(l.field);
      assert SameValue(field, NOWHERE, WithAttribute(f));
    } else {
      forall a, b, nums | SameValue(field, a, b) ensures Meaning(l, a, nums) == Meaning(l, b, nums) {
        ColumnLeaf(l, field, a, b, nums);
      }
    }
  }

  // ----- what is lost with a clause

  /** No leaf of the clause reads an attribute. */
  ghost predicate ColumnsOnly(n: Node) {
    forall l :: LeafOf(l, n) ==> !ReadsAttribute(l)
  }

  ghost predicate OnColumns(n: Node, field: string) {
    forall l :: LeafOf(l, n) ==> LeafOn(l, field) && !ReadsAttribute(l)
  }

  lemma {:induction false} ClauseDecided(n: Node, field: string, a: Row, b: Row, nums: Numbers)
    requires Aliases(field).Some? && OnColumns(n, field) && SameValue(field, a, b)
    ensures Meaning(n, a, nums) == Meaning(n, b, nums)
    decreases n, 1
  {
    hide TermMeaning, NumberMeaning, RangeMeaning, LeafOn, ReadsAttribute, SameValue, Aliases;
    match n
    case Not(_, _, _, child) =>
      assert forall l :: LeafOf(l, child) ==> LeafOf(l, n);
      ClauseDecided(child, field, a, b, nums);
    case And(_, _, _, cs) => ClausesDecided(n, cs, field, a, b, nums);
    case Or(_, _, _, cs) => ClausesDecided(n, cs, field, a, b, nums);
    case _ =>
      assert LeafOf(n, n);
      ColumnLeaf(n, field, a, b, nums);
  }

  lemma {:induction false} ClausesDecided(n: Node, cs: seq<Node>, field: string, a: Row, b: Row, nums: Numbers)
    requires (n.And? || n.Or?) && n.children == cs && Aliases(field).Some? && OnColumns(n, field) && SameValue(field, a, b)
    ensures Meaning(n, a, nums) == Meaning(n, b, nums)
    decreases n, 0
  {
    hide TermMeaning, NumberMeaning, RangeMeaning, LeafOn, ReadsAttribute, SameValue, Aliases, KAll, KAny;
    forall i | 0 <= i < |cs| ensures Meaning(cs[i], a, nums) == Meaning(cs[i], b, nums) {
      assert forall l :: LeafOf(l, cs[i]) ==> LeafOf(l, n);
      ClauseDecided(cs[i], field, a, b, nums);
    }
    assert seq(|cs|, i requires 0 <= i < |cs| => Meaning(cs[i], a, nums))
        == seq(|cs|, i requires 0 <= i < |cs| => Meaning(cs[i], b, nums));
  }

  /** What a selection leaves out says nothing but which services, or levels, are
      let through, if no leaf of it reads an attribute: it is as true of one row as
      of another with the same service, or level. */
  lemma LeftOutDecided(root: Option<Node>, field: string, c: Node)
    requires Aliases(field).Some? && c in Conjuncts(root) && c !in KeptClauses(Conjuncts(root), Aliases(field).value)
    requires ColumnsOnly(c)
    ensures Decided(field, c)
  {
    hide Conjuncts, Meaning, FieldUse, LeafOf, LeafOn, ReadsAttribute, SameValue;
    KeptAreClauses(Conjuncts(root), Aliases(field).value);
    UseMeans(c, field);
    forall a, b, nums | SameValue(field, a, b) ensures Meaning(c, a, nums) == Meaning(c, b, nums) {
      ClauseDecided(c, field, a, b, nums);
    }
  }

  /** The clauses that setting a selection leaves out read no attribute. */
  ghost predicate LeavesColumnsOut(root: Option<Node>, field: string) {
    forall c :: c in Conjuncts(root) && AllOn(c, field) ==> ColumnsOnly(c)
  }

  /** So taking the field's clauses away forgets nothing but which values it lets
      through: every row that the query keeps is still kept, and of two rows with
      the same value that are kept without those clauses, the query itself keeps
      both or neither. */
  lemma SelectionForgetsOnlyTheField(query: string, root: Option<Node>, field: string, a: Row, b: Row, nums: Numbers)
    requires Parse(query) == Success(root) && Aliases(field).Some?
    requires SelectionHolds(query, root, field, Selection(SelectAll, [])) && LeavesColumnsOut(root, field)
    requires SameValue(field, a, b)
    ensures WithSelection(query, field, Selection(SelectAll, [])).Success?
    ensures var without := WithSelection(query, field, Selection(SelectAll, [])).value;
            && (Keeps(query, a, nums) ==> Keeps(without, a, nums))
            && (Keeps(without, a, nums) && Keeps(without, b, nums) ==> (Keeps(query, a, nums) <==> Keeps(query, b, nums)))
  {
    hide Parse, Conjuncts, Meaning, WithSelection, RootMeaning, SelectionHolds, AllOn, ColumnsOnly, Decided, KAll,
         SelectionClause, SameValue;
    WithoutMeans(query, root, field, a, nums);
    WithoutMeans(query, root, field, b, nums);
    var cs := Conjuncts(root);
    forall c | c in cs && AllOn(c, field) ensures Meaning(c, a, nums) == Meaning(c, b, nums) {
      UseMeans(c, field);
      KeptAreClauses(cs, Aliases(field).value);
      LeftOutDecided(root, field, c);
      DecidedAlike(field, c, a, b, nums);
    }
  }

  lemma DecidedAlike(field: string, n: Node, a: Row, b: Row, nums: Numbers)
    requires Decided(field, n) && SameValue(field, a, b)
    ensures Meaning(n, a, nums) == Meaning(n, b, nums)
  {
    hide Meaning, SameValue;
  }

  lemma WithoutMeans(query: string, root: Option<Node>, field: string, row: Row, nums: Numbers)
    requires Parse(query) == Success(root) && Aliases(field).Some?
    requires SelectionHolds(query, root, field, Selection(SelectAll, []))
    ensures WithSelection(query, field, Selection(SelectAll, [])).Success?
    ensures Keeps(query, row, nums) <==> forall c :: c in Conjuncts(root) ==> Meaning(c, row, nums) == True
    ensures Keeps(WithSelection(query, field, Selection(SelectAll, [])).value, row, nums) <==>
            forall c :: c in Conjuncts(root) && !AllOn(c, field) ==> Meaning(c, row, nums) == True
  {
    hide Parse, Conjuncts, KeptClauses, SelectionHolds, WithSelection, FieldUse, Meaning, KAll, RootMeaning, AllOn;
    var aliases, all := Aliases(field).value, Selection(SelectAll, []);
    var ns := Conjuncts(root);
    SetSelectionPreservesMeaning(query, root, field, all, row, nums);
    assert Meanings(KeptClauses(ns, aliases), row, nums) + [] == Meanings(KeptClauses(ns, aliases), row, nums);
    ConjunctsMean(root, row, nums);
    AllTrueOf(ns, row, nums);
    AllTrueOf(KeptClauses(ns, aliases), row, nums);
    KeptAreClauses(ns, aliases);
    forall c ensures FieldUse(c, aliases) == FieldOnly <==> AllOn(c, field) {
      UseMeans(c, field);
    }
  }

  lemma AllTrueOf(ns: seq<Node>, row: Row, nums: Numbers)
    ensures KAll(Meanings(ns, row, nums)) == True <==> forall c :: c in ns ==> Meaning(c, row, nums) == True
  {
    hide Meaning, KAll;
    var ts := Meanings(ns, row, nums);
    KAllTrue(ts);
    if KAll(ts) == True {
      forall c | c in ns ensures Meaning(c, row, nums) == True {
        var i :| 0 <= i < |ns| && ns[i] == c;
        assert ts[i] == True;
      }
    } else {
      var i :| 0 <= i < |ts| && ts[i] != True;
      assert ns[i] in ns;
    }
  }

  // ----- what is lost with attributes

  lemma LoneClauseIsDropped(query: string, n: Node, field: string)
    requires Parse(query) == Success(Some(n)) && IsLeaf(n) && Aliases(field).Some? && LeafOn(n, field)
    ensures WithSelection(query, field, Selection(SelectAll, [])) == Success("")
    ensures Decided(field, n) <==> !ReadsAttribute(n)
  {
    hide Parse, LeafOn, ReadsAttribute, Decided, WithSelection, JoinedClauses;
    LeavesOutExactly(query, Some(n), field, Selection(SelectAll, []));
    LeafDecided(n, field);
    assert AllOn(n, field) by { assert LeafOf(n, n); }
    OnlyOne(n, (c: Node) => !AllOn(c, field));
    assert Conjuncts(Some(n)) == [n];
    NothingJoined(query);
  }

  lemma NothingJoined(query: string)
    ensures JoinedClauses(query, [], "") == ""
  {
    assert PartsOf(query, [], false) + Extra("") == [];
  }

  /** A comparison of the attribute `status` is left out when the levels are
      selected, though it is not about levels: every row without the attribute is
      kept then, and was not before. */
  lemma StatusComparisonIsDropped(operator: string, v: string, row: Row, nums: Numbers)
    requires operator in OPERATORS && Bare(v) && v != "" && (operator in [">", "<"] ==> !("=" <= v))
    requires AttributeText(row, "status") == None
    ensures var query := CompareText("status", operator, v);
            && WithSelection(query, "level", Selection(SelectAll, [])) == Success("")
            && !Keeps(query, row, nums) && Keeps("", row, nums)
  {
    hide Parse, Bare, WithSelection, TrimSpace, AttributeText;
    var query := CompareText("status", operator, v);
    NamesSpelled();
    CompareReads("status", operator, v);
    LoneClauseIsDropped(query, Parse(query).value.value, "level");
    NumbersRead("status", row);
    EmptyParses();
  }

  /** A range of services without bounds asks for an attribute of that name, and is
      left out when the services are selected. */
  lemma OpenRangeIsDropped(row: Row, nums: Numbers)
    requires !AttributePresent(row, "service")
    ensures var query := RangeText("service", "*", "*");
            && WithSelection(query, "service", Selection(SelectAll, [])) == Success("")
            && !Keeps(query, row, nums) && Keeps("", row, nums)
  {
    hide Parse, Bare, WithSelection, AttributePresent;
    var query := RangeText("service", "*", "*");
    NamesSpelled();
    RangeReads("service", "*", "*");
    assert TrimSpace("*") == "*";
    LoneClauseIsDropped(query, Parse(query).value.value, "service");
    EmptyParses();
  }

  lemma NamesSpelled()
    ensures BareName("status") && NormalizeField("status") == "status"
    ensures BareName("service") && NormalizeField("service") == "service"
    ensures BareBounds("*", "*")
  {
    hide NormalizeField;
    LettersSpell("status");
    LettersSpell("service");
  }

  lemma LettersSpell(field: string)
    requires field != "" && forall i :: 0 <= i < |field| ==> 'a' <= field[i] <= 'z'
    ensures BareName(field) && NormalizeField(field) == field
  {
    hide NormalizeField;
    LettersAdmitted(field);
    LetterSpells(field);
  }

  lemma EmptyParses()
    ensures Parse("") == Success(None)
  {
  }
}
