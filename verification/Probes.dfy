/** When the selection of a whole query says which rows its clauses on the field
    keep: a check of finitely many services or levels decides it for all rows. */
module Probes {
  import opened Text
  import opened Syntax
  import opened Levels
  import opened Like
  import opened Rewrite
  import opened Semantics
  import opened Facets
  import opened FacetRows
  import opened Readings

  // ----- clauses by the texts of their terms

  /** Whether every clause is true of a row, as far as its terms go. */
  predicate AllHit(field: string, only: seq<Node>, row: Row) {
    forall n | n in only ::
      FacetValues(n).Some? && AnyHits(field, TermsIn(n), row) != FacetValues(n).value.negated
  }

  /** All values that some clauses list. */
  function Listed(only: seq<Node>): seq<string> {
    if only == [] then []
    else (if FacetValues(only[0]).Some? then FacetValues(only[0]).value.values else []) + Listed(only[1..])
  }

  /** A row whose service, or level, is x. */
  function RowFor(field: string, x: string): Row {
    if field == "service" then RowWith(x, "") else RowWith("", x)
  }

  function FieldText(field: string, row: Row): string {
    if field == "service" then row.job else row.level
  }

  // ----- the services and levels to look at

  /** All texts that differ from one in letter case alone. */
  function Spellings(v: string): set<string> {
    if v == "" then {""}
    else set s, c | s in Spellings(v[1..]) && c in {v[0], OtherCase(v[0])} :: [c] + s
  }

  lemma {:induction false} SpellingsExact(v: string, w: string)
    ensures w in Spellings(v) <==> SameText(v, w)
  {
    hide LowerChar, OtherCase;
    if v != "" && w != "" {
      SpellingsExact(v[1..], w[1..]);
      CaseOfChar(v[0], w[0]);
      assert w == [w[0]] + w[1..];
      assert SameText(v, w) <==> LowerChar(v[0]) == LowerChar(w[0]) && SameText(v[1..], w[1..]) by { SameTextStep(v, w); }
      if w in Spellings(v) {
        var s, c :| s in Spellings(v[1..]) && c in {v[0], OtherCase(v[0])} && w == [c] + s;
        assert w[0] == c && w[1..] == s;
      }
    }
  }

  lemma SameTextStep(v: string, w: string)
    requires v != "" && w != ""
    ensures SameText(v, w) <==> LowerChar(v[0]) == LowerChar(w[0]) && SameText(v[1..], w[1..])
  {
    hide LowerChar;
    if |v| == |w| {
      assert forall i :: 1 <= i < |v| ==> v[i] == v[1..][i - 1] && w[i] == w[1..][i - 1];
    }
  }

  /** Services: every spelling of a listed one, and one that is not listed. Levels:
      those of the named buckets, the listed ones, and one that is neither. */
  function ProbesFor(field: string, values: seq<string>): set<string> {
    (if field == "service" then set v, s | v in values && s in Spellings(v) :: s
     else (set l | l in BUCKETED_LEVELS) + (set v | v in values :: Upper(v)))
    + {Longer(values)} - {""}
  }

  /** The boxes and the clauses agree on each of them. */
  predicate ProbesAgree(field: string, only: seq<Node>) {
    forall x | x in ProbesFor(field, Listed(only)) ::
      AllHit(field, only, RowFor(field, x)) <==> AllLetThrough(field, only, RowFor(field, x))
  }

  // ----- texts that no clause tells apart

  predicate Alike(field: string, values: seq<string>, x: string, y: string) {
    && x != "" && y != ""
    && if field == "service" then
         x == y || forall v | v in values :: !SameText(v, x) && !SameText(v, y)
       else
         LevelBucket(x) == LevelBucket(y) && forall v | v in values :: SameText(v, x) <==> SameText(v, y)
  }

  lemma AlikeTerm(field: string, t: Node, values: seq<string>, x: string, y: string)
    requires Aliases(field).Some? && t.Term? && t.value in values && Alike(field, values, x, y)
    ensures Hits(field, t, RowFor(field, x)) == Hits(field, t, RowFor(field, y))
    ensures Covers(field, t.value, RowFor(field, x)) == Covers(field, t.value, RowFor(field, y))
  {
    hide SameText, FacetLevel, LevelBucket, Named;
    SameTextReflexive(t.value);
  }

  lemma AlikeClause(field: string, n: Node, values: seq<string>, x: string, y: string)
    requires Aliases(field).Some? && FacetValues(n).Some? && Alike(field, values, x, y)
    requires forall v :: v in FacetValues(n).value.values ==> v in values
    ensures AnyHits(field, TermsIn(n), RowFor(field, x)) == AnyHits(field, TermsIn(n), RowFor(field, y))
    ensures LetsThrough(field, n, RowFor(field, x)) == LetsThrough(field, n, RowFor(field, y))
  {
    hide Hits, Covers, Alike, FacetValues, TermsIn, ValuesOf;
    var ts := TermsIn(n);
    LiteralsAreTerms(n);
    forall t | t in ts
      ensures Hits(field, t, RowFor(field, x)) == Hits(field, t, RowFor(field, y))
    {
      ValueIn(ts, t);
      AlikeTerm(field, t, values, x, y);
    }
    forall v | v in ValuesOf(ts)
      ensures Covers(field, v, RowFor(field, x)) == Covers(field, v, RowFor(field, y))
    {
      var t := ValueFrom(ts, v);
      AlikeTerm(field, t, values, x, y);
    }
  }

  lemma {:induction false} ListedHas(only: seq<Node>, n: Node, v: string)
    requires n in only && FacetValues(n).Some? && v in FacetValues(n).value.values
    ensures v in Listed(only)
  {
    hide FacetValues;
    if n != only[0] {
      ListedHas(only[1..], n, v);
    }
  }

  /** Every text is like one of those looked at. */
  lemma ProbeFor(field: string, values: seq<string>, x: string) returns (y: string)
    requires x != "" && Aliases(field).Some?
    ensures y in ProbesFor(field, values) && Alike(field, values, x, y)
  {
    hide SameText, Upper, Spellings, Longer;
    if field == "service" {
      if v :| v in values && SameText(v, x) {
        SpellingsExact(v, x);
        y := x;
      } else {
        y := Longer(values);
        NotLonger(values, y);
      }
    } else {
      y := LevelProbe(values, x);
    }
  }

  lemma LevelProbe(values: seq<string>, x: string) returns (y: string)
    requires x != ""
    ensures y in ProbesFor("level", values) && Alike("level", values, x, y)
  {
    hide SameText, Upper, LevelBucket, Longer, Alike, ProbesFor;
    var level := Upper(x);
    if level in BUCKETED_LEVELS || exists v :: v in values && Upper(v) == level {
      y := level;
      LevelsAreProbes(values, level);
      UpperAlike(values, x);
    } else {
      y := Longer(values);
      LevelsAreProbes(values, y);
      OthersAlike(values, x);
    }
  }

  lemma LevelsAreProbes(values: seq<string>, l: string)
    requires l != ""
    requires l in BUCKETED_LEVELS || (exists v :: v in values && Upper(v) == l) || l == Longer(values)
    ensures l in ProbesFor("level", values)
  {
    hide Upper, Longer;
  }

  lemma UpperAlike(values: seq<string>, x: string)
    requires x != ""
    ensures Alike("level", values, x, Upper(x)) && Upper(x) != ""
  {
    hide SameText, Upper, BucketOfUpper;
    UpperTwice(x);
    forall v | v in values ensures SameText(v, x) <==> SameText(v, Upper(x)) {
      SameTextIsUpper(v, x);
      SameTextIsUpper(v, Upper(x));
    }
  }

  lemma OthersAlike(values: seq<string>, x: string)
    requires x != "" && Upper(x) !in BUCKETED_LEVELS && forall v :: v in values ==> Upper(v) != Upper(x)
    ensures Alike("level", values, x, Longer(values))
  {
    hide SameText, Upper, BucketOfUpper, Longer;
    BucketsPartition(Upper(x), "");
    LongerIsOther(values);
    NotLonger(values, Longer(values));
    forall v | v in values ensures !SameText(v, x) {
      SameTextIsUpper(v, x);
    }
  }

  lemma UpperTwice(s: string)
    ensures Upper(Upper(s)) == Upper(s) && (s != "" ==> Upper(s) != "")
  {
  }

  lemma LongerIsOther(values: seq<string>)
    ensures LevelBucket(Longer(values)) == "ok"
  {
    hide BucketOfUpper, UpperChar, Longer;
    var level := Upper(Longer(values));
    LongerIsLong(values);
    if level in BUCKETED_LEVELS {
      BucketedAreUpper(level);
    }
    BucketsPartition(level, "");
  }

  // ----- the theorem

  lemma AlikeAgree(field: string, only: seq<Node>, x: string, y: string)
    requires Aliases(field).Some? && Alike(field, Listed(only), x, y)
    requires forall n :: n in only ==> FacetValues(n).Some?
    ensures AllHit(field, only, RowFor(field, x)) == AllHit(field, only, RowFor(field, y))
    ensures AllLetThrough(field, only, RowFor(field, x)) == AllLetThrough(field, only, RowFor(field, y))
  {
    hide AnyHits, LetsThrough, Alike, FacetValues, TermsIn, RowFor;
    forall n | n in only
      ensures AnyHits(field, TermsIn(n), RowFor(field, x)) == AnyHits(field, TermsIn(n), RowFor(field, y))
      ensures LetsThrough(field, n, RowFor(field, x)) == LetsThrough(field, n, RowFor(field, y))
    {
      forall v | v in FacetValues(n).value.values ensures v in Listed(only) {
        ListedHas(only, n, v);
      }
      AlikeClause(field, n, Listed(only), x, y);
    }
  }

  lemma ByFieldText(field: string, only: seq<Node>, row: Row)
    requires Aliases(field).Some?
    ensures var same := RowFor(field, FieldText(field, row));
            && AllHit(field, only, row) == AllHit(field, only, same)
            && AllLetThrough(field, only, row) == AllLetThrough(field, only, same)
  {
    hide SameText, FacetLevel, LevelBucket, Named, FacetValues;
    var same := RowFor(field, FieldText(field, row));
    assert forall t :: Hits(field, t, row) == Hits(field, t, same);
    assert forall v :: Covers(field, v, row) == Covers(field, v, same);
  }

  lemma ClausesAsTerms(ns: seq<Node>, field: string, row: Row, nums: Numbers)
    requires Aliases(field).Some? && !SelectionIn(ns, field, Aliases(field).value).mode.SelectCustom?
    ensures var only := OnlyClauses(ns, Aliases(field).value);
            && (forall n :: n in only ==> FacetValues(n).Some?)
            && (AllTrue(only, row, nums) <==> AllHit(field, only, row))
  {
    hide Meaning, AnyHits, FacetValues, FieldUse, SelectionIn, OnlyClauses, TermsIn;
    var only := OnlyClauses(ns, Aliases(field).value);
    forall n | n in only
      ensures FacetValues(n).Some?
      ensures Meaning(n, row, nums) == Known(AnyHits(field, TermsIn(n), row) != FacetValues(n).value.negated)
    {
      OnlyAreReadable(ns, field, n);
      ClauseMeans(field, n, row, nums);
    }
  }

  /** A query's selection, when it is not custom, says of every row with the field
      whether all clauses on the field alone are true, if and only if it does so for
      the finitely many services or levels looked at. */
  lemma QueryExact(ns: seq<Node>, field: string, nums: Numbers)
    requires Aliases(field).Some? && !SelectionIn(ns, field, Aliases(field).value).mode.SelectCustom?
    ensures var only := OnlyClauses(ns, Aliases(field).value);
            ProbesAgree(field, only) <==>
            forall row: Row :: HasField(field, row) ==>
              (AllTrue(only, row, nums) <==>
               IsSelected(SelectionIn(ns, field, Aliases(field).value), RowValue(field, row)))
  {
    hide AllHit, AllLetThrough, AllTrue, SelectionIn, OnlyClauses, IsSelected, RowValue, FacetValues, Alike, ProbesFor, Listed;
    var only := OnlyClauses(ns, Aliases(field).value);
    forall row: Row
      ensures AllTrue(only, row, nums) <==> AllHit(field, only, row)
      ensures IsSelected(SelectionIn(ns, field, Aliases(field).value), RowValue(field, row)) <==>
              AllLetThrough(field, only, row)
    {
      ClausesAsTerms(ns, field, row, nums);
      SelectionAccepts(ns, field, row);
    }
    if ProbesAgree(field, only) {
      forall row: Row | HasField(field, row) ensures AllHit(field, only, row) <==> AllLetThrough(field, only, row) {
        ClausesAsTerms(ns, field, row, nums);
        ByFieldText(field, only, row);
        var y := ProbeFor(field, Listed(only), FieldText(field, row));
        AlikeAgree(field, only, FieldText(field, row), y);
      }
    } else {
      var x :| x in ProbesFor(field, Listed(only))
               && AllHit(field, only, RowFor(field, x)) != AllLetThrough(field, only, RowFor(field, x));
      ProbesAreTexts(field, Listed(only), x);
      assert HasField(field, RowFor(field, x));
    }
  }

  lemma ProbesAreTexts(field: string, values: seq<string>, x: string)
    requires x in ProbesFor(field, values)
    ensures x != ""
  {
  }
}
