/** Clauses whose reading as a selection is not what they mean: one for each
    condition that the soundness of selections rests on. */
module Misreadings {
  import opened Wrappers
  import opened Text
  import opened Syntax
  import opened Levels
  import opened Like
  import opened Rewrite
  import opened Semantics
  import opened Facets
  import opened FacetRows
  import Readings

  const SERVICE: seq<string> := ["service", "job"]
  const LEVEL: seq<string> := ["level", "status"]

  function ServiceTerm(value: string, quoted: bool): Node {
    Term(0, 0, false, "service", value, quoted)
  }

  function LevelTerm(value: string, quoted: bool): Node {
    Term(0, 0, false, "level", value, quoted)
  }

  lemma FieldsAreNormal()
    ensures NormalizeField("service") == "service" && NormalizeField("level") == "level"
    ensures Aliases("service") == Some(SERVICE) && Aliases("level") == Some(LEVEL)
  {
  }

  lemma CollectedAlone(n: Node, field: string, aliases: seq<string>)
    requires CollectOne(Collected([], [], false), n, field, aliases).Some?
    ensures SelectionIn([n], field, aliases) ==
            Concluded(CollectOne(Collected([], [], false), n, field, aliases).value)
  {
    hide CollectOne, Concluded;
    var empty := Collected([], [], false);
    var next := CollectOne(empty, n, field, aliases).value;
    assert [n][0] == n && [n][1..] == [];
    assert Collect(next, [], field, aliases) == Some(next);
    assert Collect(empty, [n], field, aliases) == Some(next);
  }

  /** The selection a term, or its negation, makes on a field. */
  lemma TermReads(t: Node, field: string, aliases: seq<string>)
    requires t.Term? && IsLiteral(t) && NormalizeField(t.field) in aliases
    ensures var values := NormalizedValues(field, [t.value]);
            var sel := SelectionIn([t], field, aliases);
            if "*" in values then sel == Selection(SelectAll, [])
            else sel.mode == SelectInclude && forall v :: v in sel.values <==> v in values
    ensures "*" in NormalizedValues(field, [t.value]) ==>
              SelectionIn([Not(0, 0, false, t)], field, aliases) == Selection(SelectInclude, [])
  {
    hide NormalizeField, ContainsAny, NormalizedValues, Filter, SelectionIn;
    var n := Not(0, 0, false, t);
    TermValues(t);
    TermUse(t, aliases);
    CollectedAlone(t, field, aliases);
    var values := NormalizedValues(field, [t.value]);
    if "*" in values {
      CollectedAlone(n, field, aliases);
    } else {
      var c := Collected([values], [], false);
      assert [] + [values] == [values] && [values][1..] == [];
      FilterHas(values, [], false);
    }
  }

  lemma TermValues(t: Node)
    requires t.Term? && IsLiteral(t)
    ensures FacetValues(t) == Some(FacetTerms(false, [t.value]))
    ensures FacetValues(Not(0, 0, false, t)) == Some(FacetTerms(true, [t.value]))
  {
    hide ContainsAny;
    assert TermsIn(t) == [t] && TermsIn(Not(0, 0, false, t)) == [t];
    assert FacetValues(t).value.values == [t.value];
    assert FacetValues(Not(0, 0, false, t)).value.values == [t.value];
  }

  lemma TermUse(t: Node, aliases: seq<string>)
    requires t.Term? && NormalizeField(t.field) in aliases
    ensures FieldUse(t, aliases) == FieldOnly && FieldUse(Not(0, 0, false, t), aliases) == FieldOnly
  {
    hide NormalizeField;
  }

  /** A service spelled in another case, quoted or not, matches rows whose box is
      not checked. */
  lemma OtherCaseMisread(value: string, quoted: bool, row: Row, nums: Numbers)
    requires value != "*" && (quoted || !HasWildcards(value))
    requires row.job != "" && SameText(value, row.job) && value != row.job
    ensures var t := ServiceTerm(value, quoted);
            Meaning(t, row, nums) == True && !IsSelected(SelectionIn([t], "service", SERVICE), row.job)
  {
    hide NormalizeField, SameText, SelectionIn, Meaning, ContainsAny;
    var t := ServiceTerm(value, quoted);
    FieldsAreNormal();
    TermReads(t, "service", SERVICE);
    TermMeans("service", t, row, nums);
  }

  /** A quoted star names one service but is read as all of them. */
  lemma QuotedStarMisread(row: Row, nums: Numbers)
    requires row.job != "" && row.job != "*"
    ensures var t := ServiceTerm("*", true);
            Meaning(t, row, nums) == False && IsSelected(SelectionIn([t], "service", SERVICE), row.job)
  {
    hide NormalizeField, SelectionIn, Meaning;
    var t := ServiceTerm("*", true);
    FieldsAreNormal();
    TermReads(t, "service", SERVICE);
    TermMeans("service", t, row, nums);
    StarHasOneSpelling(row.job);
  }

  lemma StarHasOneSpelling(s: string)
    ensures SameText("*", s) <==> s == "*"
  {
    assert |s| == 1 ==> s == [s[0]];
  }

  /** A level that is no bare bucket name checks the box of its bucket, but does
      not match the bucket's other levels. */
  lemma RawLevelMisread(value: string, quoted: bool, row: Row, nums: Numbers)
    requires value != "*" && (quoted || !HasWildcards(value)) && !Named(LevelTerm(value, quoted))
    requires row.level != "" && LevelBucket(row.level) == LevelBucket(value) && !SameText(value, row.level)
    ensures var t := LevelTerm(value, quoted);
            Meaning(t, row, nums) == False && IsSelected(SelectionIn([t], "level", LEVEL), LevelBucket(row.level))
  {
    hide NormalizeField, SelectionIn, Meaning, ContainsAny, FacetLevel, LevelBucket, Named, SameText;
    var t := LevelTerm(value, quoted);
    FieldsAreNormal();
    TermReads(t, "level", LEVEL);
    TermMeans("level", t, row, nums);
    Readings.FacetLevelIsBucket(value);
    FacetLevelStar(value);
    assert [value][..0] == [];
    assert NormalizedValues("level", [value]) == [FacetLevel(value)];
  }

  /** Such as ERR, which checks the box of ERROR. */
  lemma ErrMisread(row: Row, nums: Numbers)
    requires row.level == "ERROR"
    ensures var t := LevelTerm("ERR", false);
            Meaning(t, row, nums) == False && IsSelected(SelectionIn([t], "level", LEVEL), LevelBucket("ERROR"))
  {
    hide Meaning, SelectionIn, LevelBucket, LevelsForBucket, IsCatchAllLevel, HasWildcards;
    ErrIsRaw();
    RawLevelMisread("ERR", false, row, nums);
  }

  lemma ErrIsRaw()
    ensures LevelBucket("ERR") == "error" && LevelBucket("ERROR") == "error"
    ensures LevelsForBucket("ERR") == [] && !IsCatchAllLevel("ERR") && !HasWildcards("ERR")
  {
    assert Lower("ERR") == "err";
    assert Upper("ERR") == "ERR";
    assert Upper("ERROR") == "ERROR";
    assert forall c :: c in "ERR" ==> c == 'E' || c == 'R';
  }

  /** A negated existence test keeps rows whose field is empty, though no box is
      checked. */
  lemma NegatedExistenceKeepsEmpty(row: Row, nums: Numbers)
    requires row.job == ""
    ensures var n := Not(0, 0, false, ServiceTerm("*", false));
            Meaning(n, row, nums) == True && !IsSelected(SelectionIn([n], "service", SERVICE), row.job)
  {
    hide NormalizeField, SelectionIn;
    FieldsAreNormal();
    TermReads(ServiceTerm("*", false), "service", SERVICE);
  }
}
