/** What each field name of a query selects on a row's own fields. */
module Columns {
  import opened Wrappers
  import opened Text
  import opened Levels
  import opened Like
  import opened Rewrite
  import opened Semantics

  // ----- names

  /** White space around a name and the case of its letters do not matter, unless it
      is marked as an attribute's. */
  lemma NamesInAnyCase(field: string)
    requires field != "" && !IsSpace(field[0]) && !IsSpace(field[|field| - 1])
    ensures field[0] != '@' && field[0] != '#' ==> NormalizeField(field) == Lower(field)
    ensures field[0] == '@' || field[0] == '#' ==> NormalizeField(field) == field
    ensures NormalizeField(" " + field + " ") == NormalizeField(field)
  {
    var padded := " " + field + " ";
    var right := field + " ";
    assert padded[0] == ' ' && padded[1..] == right;
    assert right[0] == field[0] && right[|right| - 1] == ' ' && right[..|field|] == field;
    assert TrimLeft(padded) == TrimLeft(right) == right;
    assert TrimRight(right) == TrimRight(field) == field;
    assert TrimLeft(field) == field;
  }

  // ----- the columns

  /** What a name says of one column: the value is the column's, or in it. */
  ghost predicate NamesColumn(field: string, contains: bool, column: Row -> string) {
    forall value, quoted, row ::
      TermMeaning(field, value, quoted, row) == TextMeaning(value, quoted, contains, column(row))
  }

  /** Each name of the documented fields tests that field of the row, and a clause
      without a name looks in the message. */
  lemma NamesMean(field: string)
    ensures NormalizeField(field) in ["service", "job"] ==> NamesColumn(field, false, (r: Row) => r.job)
    ensures NormalizeField(field) == "task" ==> NamesColumn(field, false, (r: Row) => r.task)
    ensures NormalizeField(field) == "stream" ==> NamesColumn(field, false, (r: Row) => r.stream)
    ensures NormalizeField(field) in ["alloc", "alloc_id", "allocation"] ==>
              NamesColumn(field, false, (r: Row) => r.allocId)
    ensures NormalizeField(field) in ["message", "content"] ==> NamesColumn(field, true, (r: Row) => r.message)
    ensures NormalizeField(field) == "raw" ==> NamesColumn(field, true, (r: Row) => r.raw)
  {
    hide NormalizeField, TextMeaning, LevelMeaning, AttributeMeaning, Matches;
  }

  /** What a value says of a text: a bare star that it is not empty, a quoted value
      that it is the same but for case, any other that it fits the pattern. */
  lemma TextMeans(value: string, quoted: bool, text: string)
    ensures !quoted && value == "*" ==> TextMeaning(value, quoted, false, text) == Known(text != "")
    ensures quoted ==> TextMeaning(value, quoted, false, text) == Known(SameText(value, text))
    ensures !quoted && value != "*" ==> TextMeaning(value, quoted, false, text) == Known(Glob(value, text))
  {
  }

  /** A value without a name is looked for in the message, and under the name `*`
      in each of seven fields of the row. */
  lemma AnywhereMeans(field: string, value: string, quoted: bool, row: Row)
    ensures NormalizeField(field) == "" ==>
              TermMeaning(field, value, quoted, row) == Known(Matches(value, quoted, true, row.message))
    ensures NormalizeField(field) == "*" ==>
              TermMeaning(field, value, quoted, row) ==
              Known(|| Matches(value, quoted, true, row.message) || Matches(value, quoted, true, row.raw)
                    || Matches(value, quoted, true, row.job) || Matches(value, quoted, true, row.allocId)
                    || Matches(value, quoted, true, row.task) || Matches(value, quoted, true, row.level)
                    || Matches(value, quoted, true, row.stream))
  {
    hide NormalizeField, Matches;
    if NormalizeField(field) == "*" {
      assert forall c :: c in FULL_TEXT <==> c in [Message, Raw, Job, AllocId, Task, Level, Stream];
      var found := exists c :: c in FULL_TEXT && Matches(value, quoted, true, ColumnText(row, c));
      EachColumn(value, quoted, row);
      assert TermMeaning(field, value, quoted, row) == Known(found);
    }
  }

  lemma EachColumn(value: string, quoted: bool, row: Row)
    ensures (exists c :: c in FULL_TEXT && Matches(value, quoted, true, ColumnText(row, c))) <==>
            (|| Matches(value, quoted, true, row.message) || Matches(value, quoted, true, row.raw)
             || Matches(value, quoted, true, row.job) || Matches(value, quoted, true, row.allocId)
             || Matches(value, quoted, true, row.task) || Matches(value, quoted, true, row.level)
             || Matches(value, quoted, true, row.stream))
  {
    hide Matches;
    assert Message in FULL_TEXT && Raw in FULL_TEXT && Job in FULL_TEXT && AllocId in FULL_TEXT;
    assert Task in FULL_TEXT && Level in FULL_TEXT && Stream in FULL_TEXT;
    assert ColumnText(row, Message) == row.message && ColumnText(row, Raw) == row.raw;
    assert ColumnText(row, Job) == row.job && ColumnText(row, AllocId) == row.allocId;
    assert ColumnText(row, Task) == row.task && ColumnText(row, Level) == row.level;
    assert ColumnText(row, Stream) == row.stream;
  }

  // ----- levels

  const CATCH_ALL: seq<string> := ["ok", "success", "unknown"]

  const ERROR_LEVELS: seq<string> := ["ERROR", "ERR"]
  const WARN_LEVELS: seq<string> := ["WARN", "WARNING"]
  const DEBUG_LEVELS: seq<string> := ["DEBUG", "TRACE"]
  const EMERGENCY_LEVELS: seq<string> := ["EMERGENCY", "ALERT", "CRITICAL", "CRIT", "FATAL", "PANIC"]

  /** The upper-case levels that a bare value without wildcards stands for, if it
      stands for more than itself. */
  function StandsFor(value: string): Option<seq<string>> {
    match Lower(value)
    case "emergency" => Some(EMERGENCY_LEVELS)
    case "error" => Some(ERROR_LEVELS)
    case "warn" => Some(WARN_LEVELS)
    case "warning" => Some(WARN_LEVELS)
    case "notice" => Some(["NOTICE"])
    case "info" => Some(["INFO"])
    case "debug" => Some(DEBUG_LEVELS)
    case _ => None
  }

  /** Levels of no bucket. */
  predicate Unranked(level: string) {
    level !in EMERGENCY_LEVELS + ERROR_LEVELS + WARN_LEVELS + ["NOTICE", "INFO"] + DEBUG_LEVELS
  }

  /** `level:v` and `status:v`: the name of a bucket stands for the bucket's levels
      in any case, a catch-all name for all levels outside the buckets, and
      anything else is compared as it is. */
  lemma LevelsMean(field: string, value: string, quoted: bool, row: Row)
    requires NormalizeField(field) in ["level", "status"]
    ensures TermMeaning(field, value, quoted, row) == LevelMeaning(value, quoted, row.level)
    ensures var t := LevelMeaning(value, quoted, row.level);
            if !quoted && value == "*" then t == Known(row.level != "")
            else if quoted || '*' in value || '?' in value then t == Known(MatchesAll(value, quoted, row.level))
            else if Lower(value) in CATCH_ALL then t == Known(Unranked(Upper(row.level)))
            else if StandsFor(value).Some? then t == Known(Upper(row.level) in StandsFor(value).value)
            else t == Known(Glob(value, row.level))
  {
    hide NormalizeField, Glob, SameText, StandsFor, Unranked, IsCatchAllLevel, LevelsForBucket, BucketName, LevelBucket,
         Lower, Upper;
    assert HasWildcards(value) <==> '*' in value || '?' in value;
    if !quoted && !HasWildcards(value) {
      BareLevelMeans(value, row.level);
    }
  }

  /** The three readings of a bare name of levels. */
  lemma BareLevelMeans(value: string, level: string)
    ensures IsCatchAllLevel(value) <==> Lower(value) in CATCH_ALL
    ensures LevelsForBucket(value) != [] <==> StandsFor(value).Some?
    ensures LevelBucket(level) == "ok" <==> Unranked(Upper(level))
    ensures StandsFor(value).Some? ==> (LevelBucket(level) == BucketName(value) <==> Upper(level) in StandsFor(value).value)
  {
    hide Lower, Upper, BucketOfUpper, Unranked;
    BucketsMean(Upper(level));
  }

  lemma BucketsMean(level: string)
    ensures BucketOfUpper(level) == "ok" <==> Unranked(level)
    ensures BucketOfUpper(level) == "emergency" <==> level in EMERGENCY_LEVELS
    ensures BucketOfUpper(level) == "error" <==> level in ERROR_LEVELS
    ensures BucketOfUpper(level) == "warn" <==> level in WARN_LEVELS
    ensures BucketOfUpper(level) == "notice" <==> level == "NOTICE"
    ensures BucketOfUpper(level) == "info" <==> level == "INFO"
    ensures BucketOfUpper(level) == "debug" <==> level in DEBUG_LEVELS
  {
  }

  // ----- attributes

  const RESERVED: seq<string> :=
    ["", "*", "service", "job", "level", "status", "task", "stream", "message", "content", "raw", "alloc", "alloc_id",
     "allocation"]

  /** Every other name is an attribute's. */
  lemma OtherNamesMean(field: string, value: string, quoted: bool, row: Row)
    requires NormalizeField(field) !in RESERVED
    ensures TermMeaning(field, value, quoted, row) == AttributeMeaning(NormalizeField(field), value, quoted, row)
  {
    hide NormalizeField, AttributeMeaning;
  }

  /** A key without the characters that paths treat apart. */
  predicate PlainKey(key: string) {
    key != "" && '.' !in key && '\\' !in key && '"' !in key && key[0] != '@' && key[0] != '#'
  }

  function KeyPath(key: string): string {
    "$.\"" + key + "\""
  }

  lemma {:induction false} NothingReplaced(s: string, c: char, to_: string)
    requires c !in s
    ensures ReplaceChar(s, c, to_) == s
  {
    if s != "" {
      assert s[0] in s;
      NothingReplaced(s[1..], c, to_);
    }
  }

  lemma PlainSegment(key: string)
    requires '\\' !in key && '"' !in key
    ensures JsonSegment(key) == ".\"" + key + "\""
  {
    NothingReplaced(key, '\\', "\\\\");
    NothingReplaced(key, '"', "\\\"");
  }

  lemma {:induction false} NoDotNoSplit(head: string, s: string)
    requires '.' !in s
    ensures SplitFrom(head, s, ".") == [head + s]
    decreases |s|
  {
    if s == "" {
      assert head + s == head;
    } else {
      assert s[0] in s;
      NoDotNoSplit(head + [s[0]], s[1..]);
      assert head + [s[0]] + s[1..] == head + s;
    }
  }

  lemma {:induction false} SplitAtDot(head: string, a: string, rest: string)
    requires '.' !in a
    ensures SplitFrom(head, a + "." + rest, ".") == [head + a] + SplitFrom("", rest, ".")
    decreases |a|
  {
    var s := a + "." + rest;
    if a == "" {
      assert s == "." + rest && s[1..] == rest && head + a == head;
    } else {
      assert a[0] in a && s[0] == a[0];
      assert s[1..] == a[1..] + "." + rest;
      SplitAtDot(head + [a[0]], a[1..], rest);
      assert head + [a[0]] + a[1..] == head + a;
    }
  }

  /** An attribute's name is its key, with or without marks before it. */
  lemma MarksDoNotMatter(key: string)
    requires key != "" && key[0] != '@' && key[0] != '#'
    ensures JsonPaths("@" + key) == JsonPaths(key) == JsonPaths("#" + key) == JsonPaths("@#" + key)
  {
    assert ("@" + key)[1..] == key && ("#" + key)[1..] == key;
    assert ("@#" + key)[1..] == "#" + key;
  }

  /** A key without dots is looked up as it is. */
  lemma KeyReads(key: string, attributes: Attributes, row: Row)
    requires PlainKey(key) && row.json == Some(attributes)
    ensures AttributePresent(row, key) <==> KeyPath(key) in attributes
    ensures AttributeText(row, key) == if KeyPath(key) in attributes then attributes[KeyPath(key)] else None
  {
    PlainPaths(key);
  }

  lemma PlainPaths(key: string)
    requires PlainKey(key)
    ensures JsonPaths(key) == (KeyPath(key), KeyPath(key))
  {
    NoDotNoSplit("", key);
    PlainSegment(key);
    assert "" + key == key;
    assert [key][1..] == [];
    assert JsonSegments([key]) == JsonSegment(key) + "" == JsonSegment(key);
    assert "$" + (".\"" + key + "\"") == KeyPath(key);
  }

  /** A key with a dot is looked up as it is, and if it has no value there, as a key
      inside another. */
  lemma DottedKeyReads(outer: string, inner: string, attributes: Attributes, row: Row)
    requires PlainKey(outer) && PlainKey(inner) && row.json == Some(attributes)
    ensures var key, nested := outer + "." + inner, KeyPath(outer) + ".\"" + inner + "\"";
            && (AttributePresent(row, key) <==> KeyPath(key) in attributes || nested in attributes)
            && AttributeText(row, key) ==
               if KeyPath(key) in attributes && attributes[KeyPath(key)].Some? then attributes[KeyPath(key)]
               else if nested in attributes then attributes[nested]
               else None
  {
    DottedPaths(outer, inner);
  }

  lemma DottedPaths(outer: string, inner: string)
    requires PlainKey(outer) && PlainKey(inner)
    ensures JsonPaths(outer + "." + inner) == (KeyPath(outer + "." + inner), KeyPath(outer) + ".\"" + inner + "\"")
  {
    hide Split, SplitFrom, JsonSegment, JsonSegments;
    var key := outer + "." + inner;
    DottedSegments(outer, inner);
    PlainSegment(outer);
    PlainSegment(inner);
    PlainSegment(key);
    assert key[0] == outer[0];
    assert "$" + JsonSegment(key) == KeyPath(key);
    assert "$" + (JsonSegment(outer) + JsonSegment(inner)) == KeyPath(outer) + ".\"" + inner + "\"";
  }

  lemma DottedSegments(outer: string, inner: string)
    requires PlainKey(outer) && PlainKey(inner)
    ensures JsonSegments(Split(outer + "." + inner, ".")) == JsonSegment(outer) + JsonSegment(inner)
  {
    hide SplitFrom, JsonSegment;
    SplitAtDot("", outer, inner);
    NoDotNoSplit("", inner);
    assert "" + outer == outer && "" + inner == inner;
    assert [outer, inner][1..] == [inner] && [inner][1..] == [];
    assert JsonSegments([inner]) == JsonSegment(inner) + "" == JsonSegment(inner);
    assert [outer] + [inner] == [outer, inner];
  }

  /** What a number is compared with: a field of the row, as text, or else the
      attribute of that name; the name `status` is an attribute's here. */
  lemma NumbersRead(field: string, row: Row)
    ensures var f := NormalizeField(field);
            && (f in ["service", "job"] ==> NumericText(row, field) == Some(row.job))
            && (f == "level" ==> NumericText(row, field) == Some(row.level))
            && (f == "task" ==> NumericText(row, field) == Some(row.task))
            && (f == "stream" ==> NumericText(row, field) == Some(row.stream))
            && (f in ["message", "content"] ==> NumericText(row, field) == Some(row.message))
            && (f == "raw" ==> NumericText(row, field) == Some(row.raw))
            && (f in ["alloc", "alloc_id", "allocation"] ==> NumericText(row, field) == Some(row.allocId))
            && (f !in RESERVED || f in ["", "*", "status"] ==> NumericText(row, field) == AttributeText(row, f))
  {
    hide NormalizeField, AttributeText;
  }

  /** A line that is not JSON has no attributes. */
  lemma NoJsonNoAttribute(field: string, row: Row)
    requires row.json.None?
    ensures !AttributePresent(row, field) && AttributeText(row, field) == None
  {
  }
}
