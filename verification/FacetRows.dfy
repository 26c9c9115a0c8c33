/** The selection read out of a query, judged on rows: it says exactly which
    rows the query's clauses on the field keep. */
module FacetRows {
  import opened Text
  import opened Syntax
  import opened Levels
  import opened Like
  import opened Rewrite
  import opened Semantics
  import opened Facets
  import Sql

  /** The facet value a row counts under. */
  function RowValue(field: string, row: Row): string {
    if field == "service" then row.job else LevelBucket(row.level)
  }

  predicate HasField(field: string, row: Row) {
    if field == "service" then row.job != "" else row.level != ""
  }

  /** A bare name of a level bucket, or of the one that catches the rest. */
  predicate Named(t: Node)
    requires t.Term?
  {
    !t.quoted && (LevelsForBucket(t.value) != [] || IsCatchAllLevel(t.value))
  }

  predicate BareStar(t: Node) {
    t.Term? && t.value == "*" && !t.quoted
  }

  /** Whether a literal term on the field matches a row. */
  predicate Hits(field: string, t: Node, row: Row) {
    t.Term?
    && if BareStar(t) then HasField(field, row)
       else if field == "service" then SameText(t.value, row.job)
       else if Named(t) then FacetLevel(t.value) == LevelBucket(row.level)
       else SameText(t.value, row.level)
  }

  /** Whether a value read from a clause covers the row. */
  predicate Covers(field: string, value: string, row: Row) {
    value == "*" || (if field == "service" then value else FacetLevel(value)) == RowValue(field, row)
  }

  lemma BucketNamesDisjoint(value: string)
    ensures IsCatchAllLevel(value) ==> LevelsForBucket(value) == []
    ensures LevelsForBucket(value) != [] ==> BucketName(value) in NAMED_BUCKETS
  {
    hide Lower;
  }

  lemma TermMeans(field: string, t: Node, row: Row, nums: Numbers)
    requires Aliases(field).Some? && t.Term? && IsLiteral(t) && NormalizeField(t.field) in Aliases(field).value
    ensures Meaning(t, row, nums) == Known(Hits(field, t, row))
  {
    hide NormalizeField, Glob, SameText, ContainsAny, Upper, Lower, BucketOfUpper, BucketLevels;
    if !t.quoted && t.value != "*" {
      Sql.PlainGlob(t.value, row.job);
      Sql.PlainGlob(t.value, row.level);
    }
    if field == "service" {
      assert NormalizeField(t.field) == "service" || NormalizeField(t.field) == "job";
    } else {
      assert NormalizeField(t.field) == "level" || NormalizeField(t.field) == "status";
      BucketNamesDisjoint(t.value);
    }
  }

  predicate AnyHits(field: string, ts: seq<Node>, row: Row) {
    exists t | t in ts :: Hits(field, t, row)
  }

  lemma SameTextReflexive(s: string)
    ensures SameText(s, s)
  {
  }

  /** A clause read as facet values is true or false, never unknown, and true
      exactly when one of its terms matches the row, or none for a negation. */
  lemma ClauseMeans(field: string, n: Node, row: Row, nums: Numbers)
    requires Aliases(field).Some?
    requires FieldUse(n, Aliases(field).value) == FieldOnly && FacetValues(n).Some?
    ensures Meaning(n, row, nums) == Known(AnyHits(field, TermsIn(n), row) != FacetValues(n).value.negated)
  {
    hide Meaning, Hits, IsLiteral, NormalizeField;
    var ts := TermsIn(n);
    var inner := if n.Not? then n.child else n;
    forall i | 0 <= i < |ts|
      ensures Meaning(ts[i], row, nums) == Known(Hits(field, ts[i], row))
    {
      TermIsOn(field, n, i);
      TermMeans(field, ts[i], row, nums);
    }
    AnyHitsMeans(field, ts, row, Meanings(ts, row, nums));
    InnerMeans(inner, ts, row, nums);
    if n.Not? {
      NotMeans(n, row, nums);
    }
  }

  lemma TermIsOn(field: string, n: Node, i: nat)
    requires Aliases(field).Some? && i < |TermsIn(n)| && FacetValues(n).Some?
    requires FieldUse(n, Aliases(field).value) == FieldOnly
    ensures IsLiteral(TermsIn(n)[i]) && TermsIn(n)[i].Term?
    ensures NormalizeField(TermsIn(n)[i].field) in Aliases(field).value
  {
    hide NormalizeField, ContainsAny;
    var inner := if n.Not? then n.child else n;
    assert !OffField(inner, Aliases(field).value);
  }

  lemma AnyHitsMeans(field: string, ts: seq<Node>, row: Row, truths: seq<Truth>)
    requires |truths| == |ts|
    requires forall i :: 0 <= i < |ts| ==> truths[i] == Known(Hits(field, ts[i], row))
    ensures KAny(truths) == Known(AnyHits(field, ts, row))
  {
    hide Hits;
    if t :| t in ts && Hits(field, t, row) {
      var i :| 0 <= i < |ts| && ts[i] == t;
      assert truths[i] == True;
    } else {
      forall i | 0 <= i < |ts|
        ensures truths[i] == False
      {
        assert ts[i] in ts;
      }
    }
  }

  lemma InnerMeans(inner: Node, ts: seq<Node>, row: Row, nums: Numbers)
    requires ts == if inner.Or? then inner.children else [inner]
    ensures Meaning(inner, row, nums) == KAny(Meanings(ts, row, nums))
  {
    hide TermMeaning, NumberMeaning, RangeMeaning;
    if inner.Or? {
      Sql.OrMeans(inner, row, nums);
    } else {
      assert Meanings(ts, row, nums) == [Meaning(inner, row, nums)];
      KAnyOne(Meaning(inner, row, nums));
    }
  }

  lemma KAnyOne(t: Truth)
    ensures KAny([t]) == t
  {
    match t
    case False =>
    case Unknown => assert Unknown in [t];
    case True => assert True in [t];
  }

  lemma NotMeans(n: Node, row: Row, nums: Numbers)
    requires n.Not?
    ensures Meaning(n, row, nums) == KNot(Meaning(n.child, row, nums))
  {
    hide TermMeaning, NumberMeaning, RangeMeaning;
  }

  predicate AnyCovers(field: string, values: seq<string>, row: Row) {
    exists v | v in values :: Covers(field, v, row)
  }

  lemma AnyCoversSnoc(field: string, values: seq<string>, value: string, row: Row)
    ensures AnyCovers(field, values + [value], row) <==> AnyCovers(field, values, row) || Covers(field, value, row)
  {
    hide Covers;
    assert forall v :: v in values + [value] <==> v in values || v == value;
  }

  lemma {:induction false} NormalizedCovers(field: string, values: seq<string>, row: Row)
    requires Aliases(field).Some?
    ensures var ns := NormalizedValues(field, values);
            AnyCovers(field, values, row) <==> "*" in ns || RowValue(field, row) in ns
  {
    hide FacetLevel, RowValue;
    StarStays(field, values);
    if field == "level" && values != [] {
      var last := |values| - 1;
      var prefix, value := values[..last], values[last];
      NormalizedCovers(field, prefix, row);
      StarStays(field, prefix);
      assert values == prefix + [value];
      AnyCoversSnoc(field, prefix, value, row);
      FacetLevelStar(value);
    } else {
      assert AnyCovers(field, values, row) <==> exists v :: v in values && (v == "*" || v == RowValue(field, row));
    }
  }

  // ----- the fold over a query's clauses

  /** What is collected so far accepts a facet value. */
  predicate Accepts(c: Collected, value: string) {
    !c.none && (forall i | 0 <= i < |c.includes| :: value in c.includes[i]) && value !in c.excludes
  }

  lemma {:induction false} IntersectHas(kept: seq<string>, sets: seq<seq<string>>, value: string)
    ensures value in Intersect(kept, sets) <==>
            value in kept && forall i | 0 <= i < |sets| :: value in sets[i]
    decreases |sets|
  {
    hide Filter;
    if sets != [] {
      FilterHas(kept, sets[0], true);
      IntersectHas(Filter(kept, sets[0], true), sets[1..], value);
      assert forall i :: 1 <= i < |sets| ==> sets[i] == sets[1..][i - 1];
    }
  }

  lemma ConcludedSelects(c: Collected, value: string)
    ensures IsSelected(Concluded(c), value) <==> Accepts(c, value)
    ensures !Concluded(c).mode.SelectCustom?
  {
    hide Filter, Intersect;
    if c.includes != [] {
      IntersectHas(c.includes[0], c.includes[1..], value);
      FilterHas(Intersect(c.includes[0], c.includes[1..]), c.excludes, false);
      assert forall i :: 1 <= i < |c.includes| ==> c.includes[i] == c.includes[1..][i - 1];
    }
  }

  /** The clauses of a query that test the field alone. */
  function OnlyClauses(ns: seq<Node>, aliases: seq<string>): seq<Node> {
    if ns == [] then []
    else (if FieldUse(ns[0], aliases) == FieldOnly then [ns[0]] else []) + OnlyClauses(ns[1..], aliases)
  }

  ghost predicate AllTrue(ns: seq<Node>, row: Row, nums: Numbers) {
    forall n :: n in ns ==> Meaning(n, row, nums) == True
  }

  lemma AcceptsMore(c: Collected, values: seq<string>, value: string)
    ensures Accepts(c.(includes := c.includes + [values]), value) <==> Accepts(c, value) && value in values
    ensures Accepts(c.(excludes := c.excludes + values), value) <==> Accepts(c, value) && value !in values
    ensures !Accepts(c.(none := true), value)
  {
    var more := c.includes + [values];
    assert more[|c.includes|] == values;
    assert forall i :: 0 <= i < |c.includes| ==> more[i] == c.includes[i];
  }

  /** Whether a clause, read as facet values, lets a row's value through. */
  predicate LetsThrough(field: string, n: Node, row: Row) {
    var f := FacetValues(n);
    f.Some? && AnyCovers(field, f.value.values, row) != f.value.negated
  }

  lemma OneCollected(c: Collected, n: Node, field: string, row: Row)
    requires Aliases(field).Some?
    requires CollectOne(c, n, field, Aliases(field).value).Some?
    ensures var next := CollectOne(c, n, field, Aliases(field).value).value;
            Accepts(next, RowValue(field, row)) <==>
            Accepts(c, RowValue(field, row)) && (FieldUse(n, Aliases(field).value) == FieldOnly ==> LetsThrough(field, n, row))
  {
    hide FieldUse, FacetValues, NormalizedValues, RowValue, AnyCovers, Accepts;
    if FieldUse(n, Aliases(field).value) == FieldOnly {
      var values := FacetValues(n).value.values;
      NormalizedCovers(field, values, row);
      AcceptsMore(c, NormalizedValues(field, values), RowValue(field, row));
    }
  }

  predicate AllLetThrough(field: string, ns: seq<Node>, row: Row) {
    forall n | n in ns :: LetsThrough(field, n, row)
  }

  lemma {:induction false} CollectedAccepts(c: Collected, ns: seq<Node>, field: string, row: Row)
    requires Aliases(field).Some? && Collect(c, ns, field, Aliases(field).value).Some?
    ensures Accepts(Collect(c, ns, field, Aliases(field).value).value, RowValue(field, row)) <==>
            Accepts(c, RowValue(field, row)) && AllLetThrough(field, OnlyClauses(ns, Aliases(field).value), row)
    decreases |ns|
  {
    hide CollectOne, FieldUse, Accepts, RowValue, LetsThrough;
    if ns != [] {
      OneCollected(c, ns[0], field, row);
      var next := CollectOne(c, ns[0], field, Aliases(field).value).value;
      CollectedAccepts(next, ns[1..], field, row);
    }
  }

  /** A selection that is not custom accepts a row's value exactly when every
      clause on the field alone lets it through. */
  lemma SelectionAccepts(ns: seq<Node>, field: string, row: Row)
    requires Aliases(field).Some? && !SelectionIn(ns, field, Aliases(field).value).mode.SelectCustom?
    ensures IsSelected(SelectionIn(ns, field, Aliases(field).value), RowValue(field, row)) <==>
            AllLetThrough(field, OnlyClauses(ns, Aliases(field).value), row)
  {
    hide Collect, RowValue, OnlyClauses, Concluded, IsSelected, AllLetThrough;
    var empty := Collected([], [], false);
    CollectedAccepts(empty, ns, field, row);
    ConcludedSelects(Collect(empty, ns, field, Aliases(field).value).value, RowValue(field, row));
  }

  /** A query's clauses are those on the field alone and the others. */
  lemma {:induction false} ClausesSplit(ns: seq<Node>, aliases: seq<string>, row: Row, nums: Numbers)
    ensures AllTrue(ns, row, nums) <==>
            AllTrue(OnlyClauses(ns, aliases), row, nums) && AllTrue(KeptClauses(ns, aliases), row, nums)
  {
    hide FieldUse, Meaning;
    if ns != [] {
      ClausesSplit(ns[1..], aliases, row, nums);
      assert forall n :: n in ns <==> n == ns[0] || n in ns[1..];
    }
  }

  lemma AllTrueMeans(ns: seq<Node>, row: Row, nums: Numbers)
    ensures AllTrue(ns, row, nums) <==> KAll(Meanings(ns, row, nums)) == True
  {
    hide Meaning;
    var ts := Meanings(ns, row, nums);
    if AllTrue(ns, row, nums) {
      assert forall i :: 0 <= i < |ns| ==> ns[i] in ns && ts[i] == True;
    } else {
      var n :| n in ns && Meaning(n, row, nums) != True;
      var i :| 0 <= i < |ns| && ns[i] == n;
      assert ts[i] in ts && ts[i] != True;
    }
  }
}
