/** What a query says about a log row, in three-valued logic: a clause on an
    attribute that a row does not have is neither true nor false. */
module Semantics {
  import opened Wrappers
  import opened Text
  import opened Syntax
  import opened Levels
  import opened Like
  import opened Locality
  import opened Rewrite

  // ----- three-valued logic

  datatype Truth = False | Unknown | True

  function Known(b: bool): Truth {
    if b then True else False
  }

  function KNot(t: Truth): Truth {
    match t
    case False => True
    case Unknown => Unknown
    case True => False
  }

  /** False if any is false, else unknown if any is unknown, else true. */
  function KAll(ts: seq<Truth>): Truth {
    if False in ts then False else if Unknown in ts then Unknown else True
  }

  /** True if any is true, else unknown if any is unknown, else false. */
  function KAny(ts: seq<Truth>): Truth {
    if True in ts then True else if Unknown in ts then Unknown else False
  }

  // ----- rows

  /** The values JSON extraction finds in a line, by path; a JSON null is there
      but has no value. */
  type Attributes = map<string, Option<string>>

  /** A stored row. `json` is None when the raw line is not JSON. */
  datatype Row = Row(
    id: int, timestamp: int, job: string, allocId: string, task: string, level: string,
    message: string, raw: string, stream: string, lineRef: string, timeInferred: bool,
    json: Option<Attributes>)

  datatype Column = Message | Raw | Job | AllocId | Task | Level | Stream

  function ColumnText(row: Row, c: Column): string {
    match c
    case Message => row.message
    case Raw => row.raw
    case Job => row.job
    case AllocId => row.allocId
    case Task => row.task
    case Level => row.level
    case Stream => row.stream
  }

  /** The columns that `*:` searches. */
  const FULL_TEXT: seq<Column> := [Message, Raw, Job, AllocId, Task, Level, Stream]

  /** The column a reserved field names, and whether it matches anywhere. */
  function ReservedColumn(field: string): Option<(Column, bool)> {
    match field
    case "service" => Some((Job, false))
    case "job" => Some((Job, false))
    case "level" => Some((Level, false))
    case "task" => Some((Task, false))
    case "stream" => Some((Stream, false))
    case "message" => Some((Message, true))
    case "content" => Some((Message, true))
    case "raw" => Some((Raw, true))
    case "alloc" => Some((AllocId, false))
    case "alloc_id" => Some((AllocId, false))
    case "allocation" => Some((AllocId, false))
    case _ => None
  }

  // ----- attributes

  function JsonSegment(segment: string): string {
    ".\"" + ReplaceChar(ReplaceChar(segment, '\\', "\\\\"), '"', "\\\"") + "\""
  }

  function JsonSegments(parts: seq<string>): string {
    if parts == [] then ""
    else (if parts[0] == "" then "" else JsonSegment(parts[0])) + JsonSegments(parts[1..])
  }

  /** The paths an attribute field may name: the key itself, and its dotted
      parts as nested keys. */
  function JsonPaths(field: string): (string, string) {
    var f := if "@" <= field then field[1..] else field;
    var key := if "#" <= f then f[1..] else f;
    ("$" + JsonSegment(key), "$" + JsonSegments(Split(key, ".")))
  }

  predicate AttributePresent(row: Row, field: string) {
    row.json.Some? && (JsonPaths(field).0 in row.json.value || JsonPaths(field).1 in row.json.value)
  }

  function AttributeAt(attributes: Attributes, path: string): Option<string> {
    if path in attributes then attributes[path] else None
  }

  /** The attribute's value: under its own key, or else nested. */
  function AttributeText(row: Row, field: string): Option<string> {
    match row.json
    case None => None
    case Some(attributes) =>
      var direct := AttributeAt(attributes, JsonPaths(field).0);
      if direct.Some? then direct else AttributeAt(attributes, JsonPaths(field).1)
  }

  // ----- terms

  predicate HasWildcards(value: string) {
    ContainsAny(value, {'*', '?'})
  }

  predicate IsExistence(value: string, quoted: bool) {
    !quoted && value == "*"
  }

  /** A level term: a bucket name stands for the whole bucket. */
  ghost function LevelMeaning(value: string, quoted: bool, level: string): Truth {
    if IsExistence(value, quoted) then Known(level != "")
    else if !quoted && !HasWildcards(value) && IsCatchAllLevel(value) then Known(LevelBucket(level) == "ok")
    else if !quoted && !HasWildcards(value) && LevelsForBucket(value) != [] then
      Known(LevelBucket(level) == BucketName(value))
    else Known(Matches(value, quoted, false, level))
  }

  ghost function TextMeaning(value: string, quoted: bool, contains: bool, text: string): Truth {
    if IsExistence(value, quoted) then Known(text != "") else Known(Matches(value, quoted, contains, text))
  }

  ghost function AttributeMeaning(field: string, value: string, quoted: bool, row: Row): Truth {
    if IsExistence(value, quoted) then Known(AttributePresent(row, field))
    else
      match AttributeText(row, field)
      case None => Unknown
      case Some(text) => Known(Matches(value, quoted, false, text))
  }

  ghost function TermMeaning(field: string, value: string, quoted: bool, row: Row): Truth {
    var f := NormalizeField(field);
    if f == "" then Known(Matches(value, quoted, true, row.message))
    else if f == "*" then Known(exists c :: c in FULL_TEXT && Matches(value, quoted, true, ColumnText(row, c)))
    else if f == "level" || f == "status" then LevelMeaning(value, quoted, row.level)
    else
      match ReservedColumn(f)
      case Some((column, contains)) => TextMeaning(value, quoted, contains, ColumnText(row, column))
      case None => AttributeMeaning(f, value, quoted, row)
  }

  // ----- numbers

  /** Number parsing and comparison, which the store leaves to its database:
      whether a text is a number, and whether `text operator bound` holds. */
  datatype Numbers = Numbers(parses: string -> bool, holds: (string, string, string) -> bool)

  function NumericText(row: Row, field: string): Option<string> {
    var f := NormalizeField(field);
    match ReservedColumn(f)
    case Some((column, _)) => Some(ColumnText(row, column))
    case None => AttributeText(row, f)
  }

  function NumberMeaning(field: string, operator: string, bound: string, row: Row, nums: Numbers): Truth {
    match NumericText(row, field)
    case None => Unknown
    case Some(text) => Known(nums.holds(operator, text, bound))
  }

  /** A bound of a range, `*` being no bound. */
  function BoundMeaning(field: string, operator: string, bound: string, row: Row, nums: Numbers): seq<Truth> {
    if bound == "*" then [] else [NumberMeaning(field, operator, bound, row, nums)]
  }

  function RangeMeaning(field: string, lower: string, upper: string, row: Row, nums: Numbers): Truth {
    if lower == "*" && upper == "*" then Known(AttributePresent(row, field))
    else KAll(BoundMeaning(field, ">=", lower, row, nums) + BoundMeaning(field, "<=", upper, row, nums))
  }

  // ----- clauses

  /** The truth of a clause on a row. */
  ghost function Meaning(n: Node, row: Row, nums: Numbers): Truth {
    match n
    case Term(_, _, _, field, value, quoted) => TermMeaning(field, value, quoted, row)
    case Compare(_, _, _, field, operator, value) => NumberMeaning(field, operator, value, row, nums)
    case Range(_, _, _, field, lower, upper) => RangeMeaning(field, lower, upper, row, nums)
    case Not(_, _, _, child) => KNot(Meaning(child, row, nums))
    case And(_, _, _, cs) => KAll(seq(|cs|, i requires 0 <= i < |cs| => Meaning(cs[i], row, nums)))
    case Or(_, _, _, cs) => KAny(seq(|cs|, i requires 0 <= i < |cs| => Meaning(cs[i], row, nums)))
  }

  ghost function Meanings(ns: seq<Node>, row: Row, nums: Numbers): seq<Truth> {
    seq(|ns|, i requires 0 <= i < |ns| => Meaning(ns[i], row, nums))
  }

  /** The truth of a parsed query on a row; without a clause it is true. */
  ghost function RootMeaning(root: Option<Node>, row: Row, nums: Numbers): Truth {
    match root
    case None => True
    case Some(n) => Meaning(n, row, nums)
  }

  /** A query is the conjunction of its conjuncts. */
  lemma ConjunctsMean(root: Option<Node>, row: Row, nums: Numbers)
    ensures RootMeaning(root, row, nums) == KAll(Meanings(Conjuncts(root), row, nums))
  {
    hide Meaning;
    if root.Some? {
      var n := root.value;
      if n.And? && !n.grouped {
        AndMeans(n, row, nums);
      } else {
        assert Meanings([n], row, nums) == [Meaning(n, row, nums)];
        KAllOne(Meaning(n, row, nums));
      }
    }
  }

  lemma AndMeans(n: Node, row: Row, nums: Numbers)
    requires n.And?
    ensures Meaning(n, row, nums) == KAll(Meanings(n.children, row, nums))
  {
    var cs := n.children;
    assert Meanings(cs, row, nums) == seq(|cs|, i requires 0 <= i < |cs| => Meaning(cs[i], row, nums));
  }

  lemma KAllOne(t: Truth)
    ensures KAll([t]) == t && KAll([]) == True
  {
    match t
    case False => assert False in [t];
    case Unknown => assert Unknown in [t];
    case True =>
  }

  /** Places and parentheses do not bear on meaning. */
  lemma {:induction false} ErasedMeaning(n: Node, row: Row, nums: Numbers)
    ensures Meaning(Erase(n), row, nums) == Meaning(n, row, nums)
    decreases n, 1
  {
    hide TermMeaning, NumberMeaning, RangeMeaning;
    match n
    case Not(_, _, _, child) => ErasedMeaning(child, row, nums);
    case And(_, _, _, cs) => ErasedMeanings(n, cs, row, nums);
    case Or(_, _, _, cs) => ErasedMeanings(n, cs, row, nums);
    case _ =>
  }

  lemma {:induction false} ErasedMeanings(n: Node, cs: seq<Node>, row: Row, nums: Numbers)
    requires (n.And? || n.Or?) && n.children == cs
    ensures Meaning(Erase(n), row, nums) == Meaning(n, row, nums)
    decreases n, 0
  {
    hide TermMeaning, NumberMeaning, RangeMeaning;
    var es := Erase(n).children;
    forall i | 0 <= i < |cs|
      ensures Meaning(es[i], row, nums) == Meaning(cs[i], row, nums)
    {
      ErasedMeaning(cs[i], row, nums);
    }
    assert seq(|es|, i requires 0 <= i < |es| => Meaning(es[i], row, nums))
        == seq(|cs|, i requires 0 <= i < |cs| => Meaning(cs[i], row, nums));
  }
}
