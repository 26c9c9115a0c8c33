/** When the selection read out of a query says what the query's clauses on the
    field mean: the exact condition on the clauses' text, and what it takes on
    one row. */
module Readings {
  import opened Wrappers
  import opened Text
  import opened Syntax
  import opened Levels
  import opened Like
  import opened Rewrite
  import opened Semantics
  import opened Facets
  import opened FacetRows

  // ----- letter case

  predicate IsLetter(c: char) {
    'a' <= c <= 'z' || 'A' <= c <= 'Z'
  }

  function OtherCase(c: char): char {
    if 'A' <= c <= 'Z' then LowerChar(c) else UpperChar(c)
  }

  function Flipped(s: string, i: nat): string
    requires i < |s|
  {
    s[i := OtherCase(s[i])]
  }

  lemma CaseOfChar(a: char, b: char)
    ensures LowerChar(a) == LowerChar(b) <==> b == a || b == OtherCase(a)
    ensures LowerChar(a) == LowerChar(b) <==> UpperChar(a) == UpperChar(b)
    ensures OtherCase(a) == a <==> !IsLetter(a)
    ensures UpperChar(LowerChar(a)) == UpperChar(a)
  {
  }

  lemma SameTextIsUpper(a: string, b: string)
    ensures SameText(a, b) <==> Upper(a) == Upper(b)
  {
    hide LowerChar, UpperChar;
    if |a| == |b| {
      forall i | 0 <= i < |a| ensures LowerChar(a[i]) == LowerChar(b[i]) <==> Upper(a)[i] == Upper(b)[i] {
        CaseOfChar(a[i], b[i]);
      }
    }
  }

  lemma UpperOfLower(s: string)
    ensures Upper(Lower(s)) == Upper(s)
  {
    hide LowerChar, UpperChar;
    forall i | 0 <= i < |s| ensures Upper(Lower(s))[i] == Upper(s)[i] {
      CaseOfChar(s[i], s[i]);
    }
  }

  /** The values hold every spelling of each of them. */
  predicate AllCases(values: seq<string>) {
    forall i, j | 0 <= i < |values| && 0 <= j < |values[i]| :: Flipped(values[i], j) in values
  }

  lemma {:induction false} SpellingsReached(values: seq<string>, v: string, w: string, k: nat)
    requires AllCases(values) && v in values && SameText(v, w) && k <= |v|
    ensures w[..k] + v[k..] in values
  {
    if k == 0 {
      assert w[..0] + v[0..] == v;
    } else {
      SpellingsReached(values, v, w, k - 1);
      var u := w[..k - 1] + v[k - 1..];
      CaseOfChar(v[k - 1], w[k - 1]);
      var i :| 0 <= i < |values| && values[i] == u;
      assert Flipped(values[i], k - 1) in values;
      assert w[..k] + v[k..] == if w[k - 1] == v[k - 1] then u else Flipped(u, k - 1);
    }
  }

  /** Holding every spelling is what it says. */
  lemma AllCasesExact(values: seq<string>)
    ensures AllCases(values) <==> forall v, w :: v in values && SameText(v, w) ==> w in values
  {
    if AllCases(values) {
      forall v, w | v in values && SameText(v, w) ensures w in values {
        SpellingsReached(values, v, w, |v|);
        assert w[..|v|] + v[|v|..] == w;
      }
    }
    if forall v, w :: v in values && SameText(v, w) ==> w in values {
      forall i, j | 0 <= i < |values| && 0 <= j < |values[i]| ensures Flipped(values[i], j) in values {
        FlippedIsSame(values[i], j);
      }
    }
  }

  lemma FlippedIsSame(s: string, i: nat)
    requires i < |s|
    ensures SameText(s, Flipped(s, i))
  {
    CaseOfChar(s[i], OtherCase(s[i]));
  }

  // ----- the exact condition

  function ValuesOf(ts: seq<Node>): (r: seq<string>)
    requires forall t :: t in ts ==> t.Term?
    ensures |r| == |ts|
  {
    seq(|ts|, i requires 0 <= i < |ts| => assert ts[i] in ts; ts[i].value)
  }

  predicate AllTerms(ts: seq<Node>) {
    forall t :: t in ts ==> t.Term?
  }

  /** Whether some value stands for a bucket when read as a facet. */
  predicate Claims(values: seq<string>, bucket: string) {
    exists v | v in values :: v == "*" || FacetLevel(v) == bucket
  }

  /** Whether some term matches a raw level. */
  predicate Matched(ts: seq<Node>, level: string)
    requires AllTerms(ts)
  {
    exists t | t in ts :: if Named(t) then FacetLevel(t.value) == BucketOfUpper(level) else Upper(t.value) == level
  }

  predicate BareCatchAll(t: Node) {
    t.Term? && !t.quoted && IsCatchAllLevel(t.value)
  }

  /** The terms of a clause say what they are read as: a bare star is among them;
      or services are listed in every spelling and no star is quoted; or every raw
      level of every bucket that is read is matched, and for the bucket of all
      other levels its own bare name is there. */
  predicate Exact(field: string, ts: seq<Node>) {
    AllTerms(ts)
    && ((exists t | t in ts :: BareStar(t))
        || (field == "service" && AllSpelled(ts))
        || (field == "level" && AllLevelsMatched(ts)))
  }

  predicate AllSpelled(ts: seq<Node>)
    requires AllTerms(ts)
  {
    "*" !in ValuesOf(ts) && AllCases(ValuesOf(ts))
  }

  predicate AllLevelsMatched(ts: seq<Node>)
    requires AllTerms(ts)
  {
    && (forall l | l in BUCKETED_LEVELS :: Claims(ValuesOf(ts), BucketOfUpper(l)) ==> Matched(ts, l))
    && (Claims(ValuesOf(ts), "ok") ==> exists t | t in ts :: BareCatchAll(t))
  }

  /** A row with given service and level. */
  function RowWith(job: string, level: string): Row {
    Row(1, 0, job, "", "", level, "", "", "", "", false, None)
  }

  /** What a facet value covers and a term hits, by the texts alone. */
  lemma CoversByText(field: string, values: seq<string>, row: Row)
    ensures field == "service" ==> (AnyCovers(field, values, row) <==> "*" in values || row.job in values)
    ensures field == "level" ==> (AnyCovers(field, values, row) <==> Claims(values, LevelBucket(row.level)))
  {
    hide FacetLevel, LevelBucket;
  }

  lemma ValueIn(ts: seq<Node>, t: Node)
    requires AllTerms(ts) && t in ts
    ensures t.Term? && t.value in ValuesOf(ts)
  {
    var i :| 0 <= i < |ts| && ts[i] == t;
    assert ValuesOf(ts)[i] == t.value;
  }

  lemma ValueFrom(ts: seq<Node>, v: string) returns (t: Node)
    requires AllTerms(ts) && v in ValuesOf(ts)
    ensures t in ts && t.Term? && t.value == v
  {
    var i :| 0 <= i < |ts| && ValuesOf(ts)[i] == v;
    t := ts[i];
  }

  /** A text longer than all of some values. */
  function Longer(values: seq<string>): (s: string)
    ensures s != "" && forall v :: v in values ==> |v| < |s|
  {
    if values == [] then "XXXXXXXXXXXX"
    else
      var rest := Longer(values[1..]);
      if |values[0]| < |rest| then rest else values[0] + "X"
  }

  lemma {:induction false} LongerIsLong(values: seq<string>)
    ensures |Longer(values)| > 11
  {
    if values != [] {
      LongerIsLong(values[1..]);
    }
  }

  // ----- services

  lemma ServiceHits(ts: seq<Node>, row: Row)
    requires AllTerms(ts) && !(exists t | t in ts :: BareStar(t))
    ensures AnyHits("service", ts, row) <==> exists v :: v in ValuesOf(ts) && SameText(v, row.job)
  {
    hide SameText;
    forall t | t in ts ensures t.Term? && t.value in ValuesOf(ts) {
      ValueIn(ts, t);
    }
    forall v | v in ValuesOf(ts) ensures exists t :: t in ts && t.Term? && t.value == v {
      var t := ValueFrom(ts, v);
    }
  }

  lemma ServiceExact(ts: seq<Node>)
    requires AllTerms(ts) && !(exists t | t in ts :: BareStar(t))
    ensures AllSpelled(ts) <==>
            forall row: Row :: row.job != "" ==> (AnyHits("service", ts, row) <==> AnyCovers("service", ValuesOf(ts), row))
    ensures AllSpelled(ts) ==> forall row: Row :: AnyHits("service", ts, row) <==> AnyCovers("service", ValuesOf(ts), row)
  {
    hide SameText, AnyHits, AnyCovers, AllCases;
    var values := ValuesOf(ts);
    AllCasesExact(values);
    if "*" !in values && AllCases(values) {
      forall row: Row ensures AnyHits("service", ts, row) <==> AnyCovers("service", values, row) {
        ServiceHits(ts, row);
        CoversByText("service", values, row);
        SameTextReflexive(row.job);
      }
    } else if "*" in values {
      var row := RowWith(Longer(values), "");
      ServiceHits(ts, row);
      CoversByText("service", values, row);
      NotLonger(values, row.job);
    } else {
      var v, w :| v in values && SameText(v, w) && w !in values;
      var row := RowWith(w, "");
      SpellingNotEmpty(v, w);
      ServiceHits(ts, row);
      CoversByText("service", values, row);
    }
  }

  lemma NotLonger(values: seq<string>, s: string)
    requires forall v :: v in values ==> |v| < |s|
    ensures forall v :: v in values ==> !SameText(v, s)
  {
  }

  lemma SpellingNotEmpty(v: string, w: string)
    requires SameText(v, w) && v != w
    ensures w != ""
  {
  }

  // ----- levels

  /** A facet level is the bucket of the raw level spelled the same, but for the
      star. */
  lemma FacetLevelIsBucket(value: string)
    requires value != "*"
    ensures FacetLevel(value) == LevelBucket(value)
  {
    hide Upper, Lower;
    UpperOfLower(value);
    BucketUpper(Lower(value));
    BucketNamesDisjoint(value);
  }

  lemma BucketUpper(lower: string)
    ensures lower in NAMED_BUCKETS ==> BucketOfUpper(Upper(lower)) == lower
    ensures lower == "warning" ==> BucketOfUpper(Upper(lower)) == "warn"
    ensures lower in ["ok", "success", "unknown"] ==> BucketOfUpper(Upper(lower)) == "ok"
  {
    assert Upper("emergency") == "EMERGENCY" && Upper("error") == "ERROR" && Upper("warn") == "WARN";
    assert Upper("notice") == "NOTICE" && Upper("info") == "INFO" && Upper("debug") == "DEBUG";
    assert Upper("warning") == "WARNING";
    assert Upper("ok") == "OK" && Upper("success") == "SUCCESS" && Upper("unknown") == "UNKNOWN";
  }

  lemma LevelHits(ts: seq<Node>, row: Row)
    requires AllTerms(ts) && !(exists t | t in ts :: BareStar(t))
    ensures AnyHits("level", ts, row) <==> Matched(ts, Upper(row.level))
  {
    hide SameText, FacetLevel, Named, Upper, BucketOfUpper;
    forall t | t in ts ensures SameText(t.value, row.level) <==> Upper(t.value) == Upper(row.level) {
      SameTextIsUpper(t.value, row.level);
    }
  }

  lemma MatchedClaims(ts: seq<Node>, level: string)
    requires AllTerms(ts) && Matched(ts, level)
    ensures Claims(ValuesOf(ts), BucketOfUpper(level))
  {
    hide FacetLevel, Named, Upper, BucketOfUpper, ValuesOf;
    var t :| t in ts && if Named(t) then FacetLevel(t.value) == BucketOfUpper(level) else Upper(t.value) == level;
    ValueIn(ts, t);
    if t.value != "*" {
      FacetLevelIsBucket(t.value);
    }
  }

  lemma CatchAllMatches(ts: seq<Node>, t: Node, level: string)
    requires AllTerms(ts) && t in ts && BareCatchAll(t) && BucketOfUpper(level) == "ok"
    ensures Matched(ts, level)
  {
    hide Lower, Upper, BucketOfUpper;
    BucketNamesDisjoint(t.value);
    NoStarCatchesAll(t.value);
  }

  lemma NoStarCatchesAll(value: string)
    requires IsCatchAllLevel(value)
    ensures value != "*"
  {
    assert |Lower(value)| == |value|;
  }

  lemma BucketedAreUpper(level: string)
    requires level in BUCKETED_LEVELS
    ensures Upper(level) == level && level != "" && |level| <= 9
  {
    assert forall l :: l in BUCKETED_LEVELS ==> forall c :: c in l ==> 'A' <= c <= 'Z';
    assert forall i :: 0 <= i < |level| ==> level[i] in level;
  }

  lemma OnlyCatchAllMatches(ts: seq<Node>, level: string)
    requires AllTerms(ts) && !(exists t | t in ts :: BareStar(t)) && Matched(ts, level)
    requires BucketOfUpper(level) == "ok" && forall v :: v in ValuesOf(ts) ==> |v| < |level|
    ensures exists t :: t in ts && BareCatchAll(t)
  {
    hide BucketOfUpper, ValuesOf, LowerChar, UpperChar, Lower, BucketLevels;
    var t :| t in ts && if Named(t) then FacetLevel(t.value) == BucketOfUpper(level) else Upper(t.value) == level;
    ValueIn(ts, t);
    BucketNamesDisjoint(t.value);
  }

  lemma LevelExact(ts: seq<Node>)
    requires AllTerms(ts) && !(exists t | t in ts :: BareStar(t))
    ensures AllLevelsMatched(ts) <==>
            forall row: Row :: row.level != "" ==> (AnyHits("level", ts, row) <==> AnyCovers("level", ValuesOf(ts), row))
    ensures AllLevelsMatched(ts) ==> forall row: Row :: AnyHits("level", ts, row) <==> AnyCovers("level", ValuesOf(ts), row)
  {
    hide AnyHits, AnyCovers, Matched, Claims, BucketOfUpper, Upper, BareCatchAll, ValuesOf;
    var values := ValuesOf(ts);
    if AllLevelsMatched(ts) {
      forall row: Row ensures AnyHits("level", ts, row) <==> AnyCovers("level", values, row) {
        LevelRow(ts, row);
      }
    }
    if forall row: Row :: row.level != "" ==> (AnyHits("level", ts, row) <==> AnyCovers("level", values, row)) {
      forall l | l in BUCKETED_LEVELS && Claims(values, BucketOfUpper(l)) ensures Matched(ts, l) {
        var row := RowWith("", l);
        BucketedAreUpper(l);
        LevelHits(ts, row);
        CoversByText("level", values, row);
      }
      if Claims(values, "ok") {
        OtherLevelsNeedCatchAll(ts);
      }
    }
  }

  lemma LevelRow(ts: seq<Node>, row: Row)
    requires AllTerms(ts) && !(exists t | t in ts :: BareStar(t)) && AllLevelsMatched(ts)
    ensures AnyHits("level", ts, row) <==> AnyCovers("level", ValuesOf(ts), row)
  {
    hide AnyHits, AnyCovers, Matched, Claims, BucketOfUpper, Upper, BareCatchAll, ValuesOf;
    var level := Upper(row.level);
    LevelHits(ts, row);
    CoversByText("level", ValuesOf(ts), row);
    BucketsPartition(level, "");
    if Matched(ts, level) {
      MatchedClaims(ts, level);
    } else if BucketOfUpper(level) == "ok" && Claims(ValuesOf(ts), "ok") {
      var t :| t in ts && BareCatchAll(t);
      CatchAllMatches(ts, t, level);
    }
  }

  lemma OtherLevelsNeedCatchAll(ts: seq<Node>)
    requires AllTerms(ts) && !(exists t | t in ts :: BareStar(t)) && Claims(ValuesOf(ts), "ok")
    requires forall row: Row :: row.level != "" ==> (AnyHits("level", ts, row) <==> AnyCovers("level", ValuesOf(ts), row))
    ensures exists t :: t in ts && BareCatchAll(t)
  {
    hide AnyHits, AnyCovers, Matched, Claims, BucketOfUpper, BareCatchAll, ValuesOf, UpperChar;
    var row := RowWith("", Longer(ValuesOf(ts)));
    var level := Upper(row.level);
    LongerIsLong(ValuesOf(ts));
    if level in BUCKETED_LEVELS {
      BucketedAreUpper(level);
    }
    BucketsPartition(level, "");
    LevelHits(ts, row);
    CoversByText("level", ValuesOf(ts), row);
    OnlyCatchAllMatches(ts, level);
  }

  // ----- clauses

  lemma LiteralsAreTerms(n: Node)
    requires FacetValues(n).Some?
    ensures AllTerms(TermsIn(n)) && FacetValues(n).value.values == ValuesOf(TermsIn(n))
  {
    hide ContainsAny;
    var ts := TermsIn(n);
    forall t | t in ts ensures t.Term? {
      var i :| 0 <= i < |ts| && ts[i] == t;
      assert IsLiteral(ts[i]);
    }
  }

  lemma StarHitsAll(field: string, ts: seq<Node>, row: Row)
    requires AllTerms(ts) && HasField(field, row) && exists t | t in ts :: BareStar(t)
    ensures AnyHits(field, ts, row) && AnyCovers(field, ValuesOf(ts), row)
  {
    hide FacetLevel, RowValue, ValuesOf;
    var t :| t in ts && BareStar(t);
    ValueIn(ts, t);
    assert Hits(field, t, row) && Covers(field, "*", row);
  }

  /** Rows that a clause with these terms can be judged by: all that have the field,
      and if no term is a bare star all others too. */
  predicate Decides(field: string, ts: seq<Node>, row: Row) {
    HasField(field, row) || forall t | t in ts :: !BareStar(t)
  }

  /** The terms hit what their values cover, on every row they can be judged by,
      exactly when they are exact; and it is enough to look at rows that have the
      field. */
  lemma TermsExact(field: string, ts: seq<Node>)
    requires Aliases(field).Some? && AllTerms(ts)
    ensures Exact(field, ts) <==>
            forall row: Row :: HasField(field, row) ==> (AnyHits(field, ts, row) <==> AnyCovers(field, ValuesOf(ts), row))
    ensures Exact(field, ts) ==>
              forall row: Row :: Decides(field, ts, row) ==> (AnyHits(field, ts, row) <==> AnyCovers(field, ValuesOf(ts), row))
  {
    hide AnyHits, AnyCovers, ValuesOf, AllSpelled, AllLevelsMatched, BareStar;
    if exists t | t in ts :: BareStar(t) {
      forall row: Row | HasField(field, row) ensures AnyHits(field, ts, row) && AnyCovers(field, ValuesOf(ts), row) {
        StarHitsAll(field, ts, row);
      }
    } else {
      ServiceExact(ts);
      LevelExact(ts);
    }
  }

  /** A clause on the field means what it is read as, on every row that has the
      field, if and only if its terms are exact. Then it does so on every row,
      unless it holds a bare star. */
  lemma ClauseExact(field: string, n: Node, nums: Numbers)
    requires Aliases(field).Some? && FieldUse(n, Aliases(field).value) == FieldOnly && FacetValues(n).Some?
    ensures Exact(field, TermsIn(n)) <==>
            forall row: Row :: HasField(field, row) ==> Meaning(n, row, nums) == Known(LetsThrough(field, n, row))
    ensures Exact(field, TermsIn(n)) ==>
              forall row: Row :: Decides(field, TermsIn(n), row) ==> Meaning(n, row, nums) == Known(LetsThrough(field, n, row))
  {
    hide AnyHits, AnyCovers, ValuesOf, Exact, HasField, Decides, Meaning, FieldUse, FacetValues, TermsIn;
    LiteralsAreTerms(n);
    TermsExact(field, TermsIn(n));
    forall row: Row
      ensures Meaning(n, row, nums) == Known(LetsThrough(field, n, row)) <==>
              (AnyHits(field, TermsIn(n), row) <==> AnyCovers(field, ValuesOf(TermsIn(n)), row))
    {
      ClauseMeans(field, n, row, nums);
    }
  }

  // ----- one term

  /** A term that means what it is read as: a bare star; a service without
      letters; a bare bucket name, or the one level of its bucket. */
  predicate SaysItself(field: string, t: Node)
    requires t.Term?
  {
    if t.value == "*" then !t.quoted
    else if field == "service" then forall i | 0 <= i < |t.value| :: !IsLetter(t.value[i])
    else Named(t) || LevelsForBucket(t.value) == [Upper(t.value)]
  }

  lemma LowerOfUpper(s: string)
    ensures Lower(Upper(s)) == Lower(s)
  {
    hide LowerChar, UpperChar;
    forall i | 0 <= i < |s| ensures Lower(Upper(s))[i] == Lower(s)[i] {
      CharCases(s[i]);
    }
  }

  lemma CharCases(c: char)
    ensures LowerChar(UpperChar(c)) == LowerChar(c)
  {
  }

  lemma ServiceTermExact(t: Node)
    requires t.Term? && t.value != "*"
    ensures SaysItself("service", t) <==> AllSpelled([t])
  {
    var values := ValuesOf([t]);
    assert values == [t.value];
    forall i | 0 <= i < |t.value| ensures IsLetter(t.value[i]) <==> Flipped(t.value, i) !in values {
      CaseOfChar(t.value[i], t.value[i]);
      assert Flipped(t.value, i)[i] == OtherCase(t.value[i]);
      assert t.value[i := t.value[i]] == t.value;
    }
    assert AllCases(values) <==> forall j :: 0 <= j < |values[0]| ==> Flipped(values[0], j) in values;
  }

  lemma OneLevelBucket(value: string)
    ensures LevelsForBucket(value) == [Upper(value)] <==> Upper(value) in ["NOTICE", "INFO"]
  {
    hide Upper, Lower;
    UpperOfLower(value);
    LowerOfUpper(value);
    NoticeAndInfo();
  }

  lemma NoticeAndInfo()
    ensures Lower("NOTICE") == "notice" && Lower("INFO") == "info"
    ensures Upper("notice") == "NOTICE" && Upper("info") == "INFO"
  {
  }

  lemma RawTermMatches(t: Node)
    requires t.Term? && !Named(t) && t.value != "*"
    ensures AllLevelsMatched([t]) <==> Upper(t.value) in ["NOTICE", "INFO"]
  {
    hide Upper, Lower, ValuesOf;
    var bucket, level := FacetLevel(t.value), Upper(t.value);
    FacetLevelIsBucket(t.value);
    assert ValuesOf([t]) == [t.value] by { OneValue(t); }
    forall b ensures Claims([t.value], b) <==> bucket == b {
      assert t.value in [t.value];
    }
    forall l ensures Matched([t], l) <==> level == l {
      assert t in [t];
    }
    assert forall u :: u in [t] ==> u == t;
    OneLevelOnly(level);
  }

  lemma OneValue(t: Node)
    requires t.Term?
    ensures ValuesOf([t]) == [t.value]
  {
  }

  lemma OneLevelOnly(level: string)
    ensures (BucketOfUpper(level) != "ok" && forall l :: l in BUCKETED_LEVELS && BucketOfUpper(l) == BucketOfUpper(level) ==> l == level)
            <==> level in ["NOTICE", "INFO"]
  {
    hide BucketOfUpper;
    if level in ["NOTICE", "INFO"] {
      forall l | BucketOfUpper(l) == BucketOfUpper(level) ensures l == level {
        AloneInBucket(l);
        AloneInBucket(level);
      }
    } else if BucketOfUpper(level) != "ok" {
      var l := Neighbour(level);
    }
    AloneInBucket(level);
  }

  lemma AloneInBucket(level: string)
    ensures BucketOfUpper(level) == "notice" <==> level == "NOTICE"
    ensures BucketOfUpper(level) == "info" <==> level == "INFO"
  {
  }

  /** Another level of the same bucket. */
  lemma Neighbour(level: string) returns (l: string)
    requires BucketOfUpper(level) != "ok" && level !in ["NOTICE", "INFO"]
    ensures l in BUCKETED_LEVELS && BucketOfUpper(l) == BucketOfUpper(level) && l != level
  {
    var bucket := BucketOfUpper(level);
    BucketsPartition(level, bucket);
    l := if bucket == "emergency" then (if level == "ALERT" then "CRIT" else "ALERT")
         else if bucket == "error" then (if level == "ERR" then "ERROR" else "ERR")
         else if bucket == "warn" then (if level == "WARN" then "WARNING" else "WARN")
         else (if level == "DEBUG" then "TRACE" else "DEBUG");
  }

  lemma SaysItselfIsExact(field: string, t: Node)
    requires Aliases(field).Some? && t.Term?
    ensures SaysItself(field, t) <==> Exact(field, [t])
  {
    hide AllSpelled, AllLevelsMatched, Upper, LevelsForBucket, IsCatchAllLevel;
    assert t in [t] && forall u :: u in [t] ==> u == t;
    if t.value == "*" {
      if t.quoted {
        StarTermExact(t);
      }
    } else if field == "service" {
      ServiceTermExact(t);
    } else if Named(t) {
      NamedTermExact(t);
    } else {
      RawTermMatches(t);
      OneLevelBucket(t.value);
    }
  }

  lemma StarTermExact(t: Node)
    requires t.Term? && t.value == "*" && t.quoted
    ensures !AllSpelled([t]) && !AllLevelsMatched([t])
  {
    hide FacetLevel, BucketOfUpper;
    OneValue(t);
    assert "*" in ["*"] && "ALERT" in BUCKETED_LEVELS;
    assert Upper("*") != "ALERT" by { assert |Upper("*")| == 1; }
    assert !Matched([t], "ALERT");
  }

  lemma NamedTermExact(t: Node)
    requires t.Term? && Named(t) && t.value != "*"
    ensures AllLevelsMatched([t])
  {
    hide Lower, Upper, BucketOfUpper, BucketLevels;
    OneValue(t);
    BucketNamesDisjoint(t.value);
    assert t in [t];
    assert forall b :: Claims([t.value], b) ==> FacetLevel(t.value) == b;
  }

  /** A term on the field means what it is read as, on every row that has the
      field, if and only if it says itself. */
  lemma TermExact(field: string, t: Node, nums: Numbers)
    requires Aliases(field).Some? && t.Term? && IsLiteral(t) && NormalizeField(t.field) in Aliases(field).value
    ensures SaysItself(field, t) <==>
            forall row: Row :: HasField(field, row) ==> Meaning(t, row, nums) == Known(Covers(field, t.value, row))
  {
    hide SaysItself, Exact, Hits, Covers, HasField, IsLiteral, NormalizeField, Meaning;
    SaysItselfIsExact(field, t);
    TermsExact(field, [t]);
    OneValue(t);
    forall row: Row | HasField(field, row)
      ensures Meaning(t, row, nums) == Known(Covers(field, t.value, row)) <==>
              (AnyHits(field, [t], row) <==> AnyCovers(field, ValuesOf([t]), row))
    {
      TermMeans(field, t, row, nums);
      assert t in [t] && t.value in [t.value];
    }
  }

  // ----- on one row, and for whole queries

  /** A term whose reading is what it means for this row at least: no quoted star;
      a service spelled as the row spells it or not at all; a bare bucket name. */
  predicate Straight(field: string, t: Node, row: Row)
    requires t.Term?
  {
    if t.value == "*" then !t.quoted
    else if field == "service" then SameText(t.value, row.job) ==> t.value == row.job
    else SaysItself(field, t)
  }

  /** A clause that can be judged by the row, and says what its terms are read as, on
      all such rows or on this one. */
  predicate ReadsTrue(field: string, n: Node, row: Row) {
    var ts := TermsIn(n);
    AllTerms(ts) && Decides(field, ts, row) && (Exact(field, ts) || forall t | t in ts :: Straight(field, t, row))
  }

  lemma StraightCovers(field: string, t: Node, row: Row)
    requires Aliases(field).Some? && t.Term? && Decides(field, [t], row) && Straight(field, t, row)
    ensures Hits(field, t, row) <==> Covers(field, t.value, row)
  {
    assert t in [t];
    if field == "service" {
      SameTextReflexive(row.job);
    } else {
      hide SaysItself;
      SaysItselfIsExact(field, t);
      TermsExact(field, [t]);
      OneHits(field, t, row);
    }
  }

  lemma OneDecides(field: string, ts: seq<Node>, t: Node, row: Row)
    requires t in ts && Decides(field, ts, row)
    ensures Decides(field, [t], row)
  {
    assert forall u :: u in [t] ==> u == t;
  }

  lemma OneHits(field: string, t: Node, row: Row)
    requires t.Term?
    ensures AnyHits(field, [t], row) <==> Hits(field, t, row)
    ensures AnyCovers(field, ValuesOf([t]), row) <==> Covers(field, t.value, row)
  {
    hide Hits, Covers;
    OneValue(t);
    assert t in [t] && t.value in [t.value];
  }

  lemma ReadsTrueHolds(field: string, n: Node, row: Row, nums: Numbers)
    requires Aliases(field).Some? && ReadsTrue(field, n, row)
    requires FieldUse(n, Aliases(field).value) == FieldOnly && FacetValues(n).Some?
    ensures Meaning(n, row, nums) == Known(LetsThrough(field, n, row))
  {
    hide Exact, Hits, Covers, HasField, Decides, FieldUse, FacetValues, Meaning, Straight, ValuesOf, TermsIn;
    var ts := TermsIn(n);
    LiteralsAreTerms(n);
    ClauseMeans(field, n, row, nums);
    if Exact(field, ts) {
      TermsExact(field, ts);
    } else {
      forall t | t in ts ensures Hits(field, t, row) <==> Covers(field, t.value, row) {
        OneDecides(field, ts, t, row);
        StraightCovers(field, t, row);
      }
      forall v | v in ValuesOf(ts) ensures exists t :: t in ts && t.Term? && t.value == v {
        var t := ValueFrom(ts, v);
      }
      forall t | t in ts ensures t.value in ValuesOf(ts) {
        ValueIn(ts, t);
      }
    }
  }

  /** The selection is sound: unless it is custom, a row satisfies every clause on
      the field alone exactly when the box of its value is checked; given that those
      clauses read true on the row. */
  lemma SelectionSound(ns: seq<Node>, field: string, row: Row, nums: Numbers)
    requires Aliases(field).Some?
    requires forall n :: n in OnlyClauses(ns, Aliases(field).value) ==> ReadsTrue(field, n, row)
    requires !SelectionIn(ns, field, Aliases(field).value).mode.SelectCustom?
    ensures AllTrue(OnlyClauses(ns, Aliases(field).value), row, nums) <==>
            IsSelected(SelectionIn(ns, field, Aliases(field).value), RowValue(field, row))
  {
    hide Collect, RowValue, HasField, Meaning, OnlyClauses, Concluded, IsSelected, ReadsTrue, LetsThrough, FieldUse;
    var only := OnlyClauses(ns, Aliases(field).value);
    SelectionAccepts(ns, field, row);
    forall n | n in only ensures Meaning(n, row, nums) == Known(LetsThrough(field, n, row)) {
      OnlyAreReadable(ns, field, n);
      ReadsTrueHolds(field, n, row, nums);
    }
  }

  lemma OnlyAreReadable(ns: seq<Node>, field: string, n: Node)
    requires Aliases(field).Some? && n in OnlyClauses(ns, Aliases(field).value)
    requires !SelectionIn(ns, field, Aliases(field).value).mode.SelectCustom?
    ensures FieldUse(n, Aliases(field).value) == FieldOnly && FacetValues(n).Some?
  {
    hide FieldUse, FacetValues, NormalizedValues, Concluded;
    CollectReads(Collected([], [], false), ns, field, Aliases(field).value, n);
  }

  lemma {:induction false} CollectReads(c: Collected, ns: seq<Node>, field: string, aliases: seq<string>, n: Node)
    requires n in OnlyClauses(ns, aliases) && Collect(c, ns, field, aliases).Some?
    ensures FieldUse(n, aliases) == FieldOnly && FacetValues(n).Some?
    decreases |ns|
  {
    hide FieldUse, FacetValues, NormalizedValues;
    if n in OnlyClauses(ns[1..], aliases) {
      CollectReads(CollectOne(c, ns[0], field, aliases).value, ns[1..], field, aliases, n);
    }
  }

  /** A query with one clause on the field, which has a selection: the selection
      says of every row with the field whether the clause is true, if and only if
      the clause's terms are exact. */
  lemma OneClauseSelection(ns: seq<Node>, n: Node, field: string, nums: Numbers)
    requires Aliases(field).Some? && OnlyClauses(ns, Aliases(field).value) == [n]
    requires !SelectionIn(ns, field, Aliases(field).value).mode.SelectCustom?
    ensures Exact(field, TermsIn(n)) <==>
            forall row: Row :: HasField(field, row) ==>
              (Meaning(n, row, nums) == True <==>
               IsSelected(SelectionIn(ns, field, Aliases(field).value), RowValue(field, row)))
  {
    hide Collect, RowValue, HasField, Meaning, OnlyClauses, Concluded, IsSelected, LetsThrough, FieldUse, Exact, SelectionIn;
    assert n in [n] && forall u :: u in [n] ==> u == n;
    OnlyAreReadable(ns, field, n);
    ClauseExact(field, n, nums);
    forall row: Row | HasField(field, row)
      ensures Meaning(n, row, nums) == Known(LetsThrough(field, n, row)) <==>
              (Meaning(n, row, nums) == True <==>
               IsSelected(SelectionIn(ns, field, Aliases(field).value), RowValue(field, row)))
    {
      SelectionAccepts(ns, field, row);
      ClauseMeans(field, n, row, nums);
    }
  }
}
