/** The SQL a query compiles to: conditions with placeholders, the arguments
    bound to them, and what they select. */
module Sql {
  import opened Wrappers
  import opened Text
  import opened Syntax
  import opened Levels
  import opened Like
  import opened Rewrite
  import opened Semantics

  /** A value bound to a placeholder. */
  datatype Arg = TextArg(text: string) | IntArg(number: int)

  /** Text-valued expressions; `Param` is a placeholder, and the Json forms take
      a placeholder for their path. */
  datatype Scalar =
    | TextColumn(column: Column)
    | JsonExtract
    | CoalesceExtracts

  /** Conditions. Those that compare take a placeholder after their operand. */
  datatype Cond =
    | Always
    | NotEmpty(column: Column)
    | LikeParam(operand: Scalar)
    | NoCaseParam(operand: Scalar)
    | UpperIn(column: Column, count: nat)
    | UpperNotIn(column: Column, count: nat)
    | JsonPresent
    | EitherPresent
    | RealCompare(operand: Scalar, operator: string)
    | TimeCompare(operator: string)
    | IdCompare(operator: string)
    | CNot(cond: Cond)
    | CAnd(conds: seq<Cond>)
    | COr(conds: seq<Cond>)

  // ----- placeholders

  function ScalarParams(e: Scalar): nat {
    match e
    case TextColumn(_) => 0
    case JsonExtract => 1
    case CoalesceExtracts => 2
  }

  /** How many placeholders a condition holds. */
  function Params(c: Cond): nat
    decreases c, 0
  {
    match c
    case Always => 0
    case NotEmpty(_) => 0
    case LikeParam(e) => ScalarParams(e) + 1
    case NoCaseParam(e) => ScalarParams(e) + 1
    case UpperIn(_, n) => n
    case UpperNotIn(_, n) => n
    case JsonPresent => 1
    case EitherPresent => 2
    case RealCompare(e, _) => ScalarParams(e) + 1
    case TimeCompare(_) => 1
    case IdCompare(_) => 1
    case CNot(d) => Params(d)
    case CAnd(cs) => ParamsAll(cs)
    case COr(cs) => ParamsAll(cs)
  }

  function ParamsAll(cs: seq<Cond>): nat
    decreases cs, 0
  {
    if cs == [] then 0 else Params(cs[0]) + ParamsAll(cs[1..])
  }

  // ----- evaluation: arguments are taken from left to right

  function ArgText(a: Arg): string {
    if a.TextArg? then a.text else ""
  }

  function ExtractAt(row: Row, path: string): Option<string> {
    if row.json.Some? then AttributeAt(row.json.value, path) else None
  }

  predicate TypeAt(row: Row, path: string) {
    row.json.Some? && path in row.json.value
  }

  /** An expression's value; None is SQL's NULL. */
  function Value(e: Scalar, args: seq<Arg>, row: Row): Option<string>
    requires |args| == ScalarParams(e)
  {
    match e
    case TextColumn(c) => Some(ColumnText(row, c))
    case JsonExtract => ExtractAt(row, ArgText(args[0]))
    case CoalesceExtracts =>
      var first := ExtractAt(row, ArgText(args[0]));
      if first.Some? then first else ExtractAt(row, ArgText(args[1]))
  }

  function Compared(operator: string, a: int, b: int): Truth {
    match operator
    case "<" => Known(a < b)
    case "<=" => Known(a <= b)
    case ">" => Known(a > b)
    case ">=" => Known(a >= b)
    case "=" => Known(a == b)
    case _ => Unknown
  }

  predicate AmongArgs(text: string, args: seq<Arg>) {
    exists i | 0 <= i < |args| :: args[i] == TextArg(text)
  }

  /** A condition's truth on a row. */
  function Eval(c: Cond, args: seq<Arg>, row: Row, nums: Numbers): Truth
    requires |args| == Params(c)
    decreases c, 0
  {
    match c
    case Always => True
    case NotEmpty(column) => Known(ColumnText(row, column) != "")
    case LikeParam(e) =>
      (match Value(e, args[..ScalarParams(e)], row)
       case None => Unknown
       case Some(text) => Known(SqlLike(ArgText(args[ScalarParams(e)]), text)))
    case NoCaseParam(e) =>
      (match Value(e, args[..ScalarParams(e)], row)
       case None => Unknown
       case Some(text) => Known(SameText(ArgText(args[ScalarParams(e)]), text)))
    case UpperIn(column, _) => Known(AmongArgs(Upper(ColumnText(row, column)), args))
    case UpperNotIn(column, _) => Known(!AmongArgs(Upper(ColumnText(row, column)), args))
    case JsonPresent => Known(TypeAt(row, ArgText(args[0])))
    case EitherPresent => Known(TypeAt(row, ArgText(args[0])) || TypeAt(row, ArgText(args[1])))
    case RealCompare(e, operator) =>
      (match Value(e, args[..ScalarParams(e)], row)
       case None => Unknown
       case Some(text) => Known(nums.holds(operator, text, ArgText(args[ScalarParams(e)]))))
    case TimeCompare(operator) =>
      if args[0].IntArg? then Compared(operator, row.timestamp, args[0].number) else Unknown
    case IdCompare(operator) =>
      if args[0].IntArg? then Compared(operator, row.id, args[0].number) else Unknown
    case CNot(d) => KNot(Eval(d, args, row, nums))
    case CAnd(cs) => KAll(EvalAll(cs, args, row, nums))
    case COr(cs) => KAny(EvalAll(cs, args, row, nums))
  }

  function EvalAll(cs: seq<Cond>, args: seq<Arg>, row: Row, nums: Numbers): (r: seq<Truth>)
    requires |args| == ParamsAll(cs)
    ensures |r| == |cs|
    decreases cs, 0
  {
    if cs == [] then []
    else
      var n := Params(cs[0]);
      [Eval(cs[0], args[..n], row, nums)] + EvalAll(cs[1..], args[n..], row, nums)
  }

  // ----- compiling

  datatype Compiled = Compiled(cond: Cond, args: seq<Arg>)

  datatype CompileError = NeedsNumber(pos: int) | LowerBound(pos: int) | UpperBound(pos: int)

  function PatternArg(value: string, quoted: bool, contains: bool): Arg {
    TextArg(LikePattern(value, quoted, contains))
  }

  predicate ShouldUseLike(value: string, quoted: bool, contains: bool) {
    contains || (!quoted && HasWildcards(value))
  }

  function LevelArgs(levels: seq<string>): seq<Arg> {
    seq(|levels|, i requires 0 <= i < |levels| => TextArg(levels[i]))
  }

  function TextSql(column: Column, value: string, quoted: bool, contains: bool): Compiled {
    if IsExistence(value, quoted) then Compiled(NotEmpty(column), [])
    else if ShouldUseLike(value, quoted, contains) then
      Compiled(LikeParam(TextColumn(column)), [PatternArg(value, quoted, contains)])
    else Compiled(NoCaseParam(TextColumn(column)), [TextArg(value)])
  }

  function LevelSql(value: string, quoted: bool): Compiled {
    if IsExistence(value, quoted) then Compiled(NotEmpty(Level), [])
    else if !quoted && !HasWildcards(value) && IsCatchAllLevel(value) then
      Compiled(UpperNotIn(Level, |BUCKETED_LEVELS|), LevelArgs(BUCKETED_LEVELS))
    else if !quoted && !HasWildcards(value) && LevelsForBucket(value) != [] then
      Compiled(UpperIn(Level, |LevelsForBucket(value)|), LevelArgs(LevelsForBucket(value)))
    else TextSql(Level, value, quoted, false)
  }

  function AttributeExistsSql(field: string): Compiled {
    var (direct, nested) := JsonPaths(field);
    if direct == nested then Compiled(JsonPresent, [TextArg(direct)])
    else Compiled(EitherPresent, [TextArg(direct), TextArg(nested)])
  }

  function AttributeExpression(field: string): (r: (Scalar, seq<Arg>))
    ensures |r.1| == ScalarParams(r.0)
  {
    var (direct, nested) := JsonPaths(field);
    if direct == nested then (JsonExtract, [TextArg(direct)])
    else (CoalesceExtracts, [TextArg(direct), TextArg(nested)])
  }

  function AttributeSql(field: string, value: string, quoted: bool): Compiled {
    if IsExistence(value, quoted) then AttributeExistsSql(field)
    else
      var (e, args) := AttributeExpression(field);
      if ShouldUseLike(value, quoted, false) then
        Compiled(LikeParam(e), args + [PatternArg(value, quoted, false)])
      else Compiled(NoCaseParam(e), args + [TextArg(value)])
  }

  function FullTextSql(value: string, quoted: bool): Compiled {
    Compiled(COr(seq(|FULL_TEXT|, i requires 0 <= i < |FULL_TEXT| => LikeParam(TextColumn(FULL_TEXT[i])))),
             seq(|FULL_TEXT|, _ => PatternArg(value, quoted, true)))
  }

  function TermSql(field: string, value: string, quoted: bool): Compiled {
    var f := NormalizeField(field);
    if f == "" then Compiled(LikeParam(TextColumn(Message)), [PatternArg(value, quoted, true)])
    else if f == "*" then FullTextSql(value, quoted)
    else if f == "level" || f == "status" then LevelSql(value, quoted)
    else
      match ReservedColumn(f)
      case Some((column, contains)) => TextSql(column, value, quoted, contains)
      case None => AttributeSql(f, value, quoted)
  }

  function NumericExpression(field: string): (r: (Scalar, seq<Arg>))
    ensures |r.1| == ScalarParams(r.0)
  {
    var f := NormalizeField(field);
    match ReservedColumn(f)
    case Some((column, _)) => (TextColumn(column), [])
    case None => AttributeExpression(f)
  }

  function NumberSql(field: string, operator: string, bound: string): Compiled {
    var (e, args) := NumericExpression(field);
    Compiled(RealCompare(e, operator), args + [TextArg(bound)])
  }

  function ComparisonSql(pos: int, field: string, operator: string, value: string, nums: Numbers)
    : Result<Compiled, CompileError>
  {
    if !nums.parses(value) then Failure(NeedsNumber(pos)) else Success(NumberSql(field, operator, value))
  }

  function BoundSql(field: string, operator: string, bound: string): seq<Compiled> {
    if bound == "*" then [] else [NumberSql(field, operator, bound)]
  }

  function RangeSql(pos: int, field: string, lower: string, upper: string, nums: Numbers)
    : Result<Compiled, CompileError>
  {
    if lower != "*" && !nums.parses(lower) then Failure(LowerBound(pos))
    else if upper != "*" && !nums.parses(upper) then Failure(UpperBound(pos))
    else if lower == "*" && upper == "*" then Success(AttributeExistsSql(field))
    else Success(Joined(BoundSql(field, ">=", lower) + BoundSql(field, "<=", upper)))
  }

  function Conds(cs: seq<Compiled>): seq<Cond> {
    seq(|cs|, i requires 0 <= i < |cs| => cs[i].cond)
  }

  function ArgsOf(cs: seq<Compiled>): seq<Arg> {
    if cs == [] then [] else cs[0].args + ArgsOf(cs[1..])
  }

  /** Conditions joined by AND, with their arguments in the same order. */
  function Joined(cs: seq<Compiled>): Compiled {
    Compiled(CAnd(Conds(cs)), ArgsOf(cs))
  }

  /** The SQL of a clause. */
  function Compile(n: Node, nums: Numbers): Result<Compiled, CompileError>
    decreases n, 1
  {
    match n
    case Term(_, _, _, field, value, quoted) => Success(TermSql(field, value, quoted))
    case Compare(pos, _, _, field, operator, value) => ComparisonSql(pos, field, operator, value, nums)
    case Range(pos, _, _, field, lower, upper) => RangeSql(pos, field, lower, upper, nums)
    case Not(_, _, _, child) =>
      var c :- Compile(child, nums);
      Success(Compiled(CNot(c.cond), c.args))
    case And(_, _, _, cs) =>
      var all :- CompileAll(cs, nums);
      Success(Joined(all))
    case Or(_, _, _, cs) =>
      var all :- CompileAll(cs, nums);
      Success(Compiled(COr(Conds(all)), ArgsOf(all)))
  }

  function CompileAll(ns: seq<Node>, nums: Numbers): (r: Result<seq<Compiled>, CompileError>)
    ensures r.Success? ==> |r.value| == |ns|
    decreases ns, 0
  {
    if ns == [] then Success([])
    else
      var first :- Compile(ns[0], nums);
      var rest :- CompileAll(ns[1..], nums);
      Success([first] + rest)
  }

  // ----- compiling preserves meaning

  /** The condition binds its arguments one for one and is as true on every row
      as `meaning` says. */
  ghost predicate Means(c: Compiled, row: Row, nums: Numbers, meaning: Truth) {
    |c.args| == Params(c.cond) && Eval(c.cond, c.args, row, nums) == meaning
  }

  /** Without wildcards, an exact match is equality up to case. */
  lemma {:induction false} PlainGlob(v: string, t: string)
    requires !HasWildcards(v)
    ensures Glob(v, t) <==> SameText(v, t)
  {
    if v != "" {
      assert v[0] in v && forall c :: c in v[1..] ==> c in v;
      if t != "" {
        PlainGlob(v[1..], t[1..]);
        OneMatches(v, true, t);
      }
    }
  }

  lemma TextSqlMeans(column: Column, value: string, quoted: bool, contains: bool, row: Row, nums: Numbers)
    ensures Means(TextSql(column, value, quoted, contains), row, nums,
                  TextMeaning(value, quoted, contains, ColumnText(row, column)))
  {
    hide SqlLike, Glob, SameText, LikePattern, HasWildcards;
    var text := ColumnText(row, column);
    if ShouldUseLike(value, quoted, contains) {
      LikePatternCorrect(value, quoted, contains, text);
    } else if !quoted {
      PlainGlob(value, text);
    }
  }

  lemma LevelArgsHold(levels: seq<string>, text: string)
    ensures AmongArgs(text, LevelArgs(levels)) <==> text in levels
  {
    if text in levels {
      var i :| 0 <= i < |levels| && levels[i] == text;
      assert LevelArgs(levels)[i] == TextArg(text);
    }
  }

  lemma LevelSqlMeans(value: string, quoted: bool, row: Row, nums: Numbers)
    ensures Means(LevelSql(value, quoted), row, nums, LevelMeaning(value, quoted, row.level))
  {
    hide SqlLike, Glob, SameText, LikePattern, HasWildcards, BucketLevels, BucketOfUpper, Upper, Lower;
    TextSqlMeans(Level, value, quoted, false, row, nums);
    BucketsPartition(Upper(row.level), BucketName(value));
    LevelArgsHold(BUCKETED_LEVELS, Upper(row.level));
    LevelArgsHold(LevelsForBucket(value), Upper(row.level));
  }

  lemma AttributeExistsMeans(field: string, row: Row, nums: Numbers)
    ensures Means(AttributeExistsSql(field), row, nums, Known(AttributePresent(row, field)))
  {
    hide JsonSegment, JsonSegments, Split;
  }

  lemma AttributeValue(field: string, row: Row)
    ensures var (e, args) := AttributeExpression(field); Value(e, args, row) == AttributeText(row, field)
  {
    hide JsonSegment, JsonSegments, Split;
  }

  lemma AttributeSqlMeans(field: string, value: string, quoted: bool, row: Row, nums: Numbers)
    ensures Means(AttributeSql(field, value, quoted), row, nums, AttributeMeaning(field, value, quoted, row))
  {
    hide SqlLike, Glob, SameText, LikePattern, HasWildcards, JsonPaths, AttributeExistsSql, AttributeExpression;
    AttributeExistsMeans(field, row, nums);
    AttributeValue(field, row);
    var (e, args) := AttributeExpression(field);
    var all := args + [TextArg(value)];
    var pattern := args + [PatternArg(value, quoted, false)];
    assert all[..|args|] == args && pattern[..|args|] == args;
    match AttributeText(row, field)
    case None =>
    case Some(text) =>
      if ShouldUseLike(value, quoted, false) {
        LikePatternCorrect(value, quoted, false, text);
      } else if !quoted {
        PlainGlob(value, text);
      }
  }

  lemma NumberSqlMeans(field: string, operator: string, bound: string, row: Row, nums: Numbers)
    ensures Means(NumberSql(field, operator, bound), row, nums, NumberMeaning(field, operator, bound, row, nums))
  {
    hide JsonPaths, AttributeExpression;
    AttributeValue(NormalizeField(field), row);
    var (e, args) := NumericExpression(field);
    assert (args + [TextArg(bound)])[..|args|] == args;
  }

  /** The columns of a full-text search, from k on. */
  lemma {:induction false} FullTextMeans(cs: seq<Column>, value: string, quoted: bool, row: Row, nums: Numbers)
    ensures var conds := seq(|cs|, i requires 0 <= i < |cs| => LikeParam(TextColumn(cs[i])));
            var args := seq(|cs|, _ => PatternArg(value, quoted, true));
            && ParamsAll(conds) == |args|
            && |EvalAll(conds, args, row, nums)| == |cs|
            && forall i :: 0 <= i < |cs| ==>
                 EvalAll(conds, args, row, nums)[i] == Known(Matches(value, quoted, true, ColumnText(row, cs[i])))
  {
    hide SqlLike, MatchesAll, LikePattern;
    if cs != [] {
      var rest := cs[1..];
      FullTextMeans(rest, value, quoted, row, nums);
      var conds := seq(|cs|, i requires 0 <= i < |cs| => LikeParam(TextColumn(cs[i])));
      var args: seq<Arg> := seq(|cs|, _ => PatternArg(value, quoted, true));
      assert conds[1..] == seq(|rest|, i requires 0 <= i < |rest| => LikeParam(TextColumn(rest[i])));
      assert args[1..] == seq(|rest|, _ => PatternArg(value, quoted, true));
      LikePatternCorrect(value, quoted, true, ColumnText(row, cs[0]));
      assert args[..1][..0] == [] && args[..1][0] == PatternArg(value, quoted, true);
    }
  }

  lemma FullTextSqlMeans(value: string, quoted: bool, row: Row, nums: Numbers)
    ensures Means(FullTextSql(value, quoted), row, nums,
                  Known(exists c :: c in FULL_TEXT && Matches(value, quoted, true, ColumnText(row, c))))
  {
    hide SqlLike, Matches, LikePattern, EvalAll, ParamsAll;
    FullTextMeans(FULL_TEXT, value, quoted, row, nums);
    var c := FullTextSql(value, quoted);
    var truths := EvalAll(c.cond.conds, c.args, row, nums);
    if True in truths {
      var i :| 0 <= i < |truths| && truths[i] == True;
      assert FULL_TEXT[i] in FULL_TEXT;
    }
    if c' :| c' in FULL_TEXT && Matches(value, quoted, true, ColumnText(row, c')) {
      var i :| 0 <= i < |FULL_TEXT| && FULL_TEXT[i] == c';
      assert truths[i] == True;
    }
  }

  lemma TermSqlMeans(field: string, value: string, quoted: bool, row: Row, nums: Numbers)
    ensures Means(TermSql(field, value, quoted), row, nums, TermMeaning(field, value, quoted, row))
  {
    hide LevelSql, LevelMeaning, TextSql, TextMeaning, AttributeSql, AttributeMeaning, FullTextSql, Matches,
         LikePattern, NormalizeField, SqlLike;
    var f := NormalizeField(field);
    LevelSqlMeans(value, quoted, row, nums);
    FullTextSqlMeans(value, quoted, row, nums);
    AttributeSqlMeans(f, value, quoted, row, nums);
    LikePatternCorrect(value, quoted, true, row.message);
    match ReservedColumn(f)
    case Some((column, contains)) => TextSqlMeans(column, value, quoted, contains, row, nums);
    case None =>
  }

  /** Each of a list of conditions means what the list of truths says. */
  ghost predicate MeanAll(cs: seq<Compiled>, row: Row, nums: Numbers, truths: seq<Truth>) {
    |cs| == |truths| && forall i :: 0 <= i < |cs| ==> Means(cs[i], row, nums, truths[i])
  }

  lemma {:induction false} ListParams(cs: seq<Compiled>)
    requires forall i :: 0 <= i < |cs| ==> |cs[i].args| == Params(cs[i].cond)
    ensures ParamsAll(Conds(cs)) == |ArgsOf(cs)|
  {
    hide Params;
    if cs != [] {
      ListParams(cs[1..]);
      assert Conds(cs)[1..] == Conds(cs[1..]);
    }
  }

  lemma ListStep(cs: seq<Compiled>, row: Row, nums: Numbers)
    requires cs != [] && forall i :: 0 <= i < |cs| ==> |cs[i].args| == Params(cs[i].cond)
    ensures ParamsAll(Conds(cs)) == |ArgsOf(cs)| && ParamsAll(Conds(cs[1..])) == |ArgsOf(cs[1..])|
    ensures EvalAll(Conds(cs), ArgsOf(cs), row, nums) ==
            [Eval(cs[0].cond, cs[0].args, row, nums)] + EvalAll(Conds(cs[1..]), ArgsOf(cs[1..]), row, nums)
  {
    hide Params, Eval;
    ListParams(cs);
    ListParams(cs[1..]);
    assert Conds(cs)[1..] == Conds(cs[1..]);
    var n := Params(cs[0].cond);
    assert ArgsOf(cs)[..n] == cs[0].args;
    assert ArgsOf(cs)[n..] == ArgsOf(cs[1..]);
  }

  /** Arguments of a list are consumed each by its own condition. */
  lemma {:induction false} ListMeans(cs: seq<Compiled>, row: Row, nums: Numbers, truths: seq<Truth>)
    requires MeanAll(cs, row, nums, truths)
    ensures ParamsAll(Conds(cs)) == |ArgsOf(cs)|
    ensures EvalAll(Conds(cs), ArgsOf(cs), row, nums) == truths
  {
    hide Eval, Params, Conds, ArgsOf;
    ListParams(cs);
    if cs != [] {
      ListStep(cs, row, nums);
      ListMeans(cs[1..], row, nums, truths[1..]);
      assert Means(cs[0], row, nums, truths[0]);
      assert truths == [truths[0]] + truths[1..];
    } else {
      assert Conds(cs) == [] by { EmptyList(); }
    }
  }

  lemma EmptyList()
    ensures Conds([]) == [] && ArgsOf([]) == []
  {
  }

  lemma JoinedMeans(cs: seq<Compiled>, row: Row, nums: Numbers, truths: seq<Truth>)
    requires MeanAll(cs, row, nums, truths)
    ensures Means(Joined(cs), row, nums, KAll(truths))
    ensures Means(Compiled(COr(Conds(cs)), ArgsOf(cs)), row, nums, KAny(truths))
  {
    hide EvalAll, ParamsAll, KAll, KAny, ArgsOf, Conds;
    ListMeans(cs, row, nums, truths);
  }

  lemma RangeSqlMeans(pos: int, field: string, lower: string, upper: string, row: Row, nums: Numbers)
    requires RangeSql(pos, field, lower, upper, nums).Success?
    ensures Means(RangeSql(pos, field, lower, upper, nums).value, row, nums,
                  RangeMeaning(field, lower, upper, row, nums))
  {
    hide AttributeExistsSql, AttributePresent, NumberSql, NumberMeaning, Means, Joined, KAll;
    AttributeExistsMeans(field, row, nums);
    NumberSqlMeans(field, ">=", lower, row, nums);
    NumberSqlMeans(field, "<=", upper, row, nums);
    JoinedMeans(BoundSql(field, ">=", lower) + BoundSql(field, "<=", upper), row, nums,
                BoundMeaning(field, ">=", lower, row, nums) + BoundMeaning(field, "<=", upper, row, nums));
  }

  /** Compiling preserves meaning: on every row the SQL of a clause, with its
      arguments bound from left to right, is as true as the clause. */
  lemma {:induction false} CompilePreservesMeaning(n: Node, row: Row, nums: Numbers)
    requires Compile(n, nums).Success?
    ensures Means(Compile(n, nums).value, row, nums, Meaning(n, row, nums))
    decreases n, 1
  {
    hide TermSql, TermMeaning, NumberSql, NumberMeaning, RangeSql, RangeMeaning, KAll, KAny, EvalAll, ParamsAll,
         CompileAll, Joined, Conds, ArgsOf;
    match n
    case Term(_, _, _, field, value, quoted) => TermSqlMeans(field, value, quoted, row, nums);
    case Compare(_, _, _, field, operator, value) => NumberSqlMeans(field, operator, value, row, nums);
    case Range(pos, _, _, field, lower, upper) => RangeSqlMeans(pos, field, lower, upper, row, nums);
    case Not(_, _, _, child) => CompilePreservesMeaning(child, row, nums);
    case And(_, _, _, cs) =>
      CompileAllMeans(cs, row, nums);
      JoinedMeans(CompileAll(cs, nums).value, row, nums, Meanings(cs, row, nums));
      AndMeans(n, row, nums);
    case Or(_, _, _, cs) =>
      CompileAllMeans(cs, row, nums);
      JoinedMeans(CompileAll(cs, nums).value, row, nums, Meanings(cs, row, nums));
      OrMeans(n, row, nums);
  }

  lemma OrMeans(n: Node, row: Row, nums: Numbers)
    requires n.Or?
    ensures Meaning(n, row, nums) == KAny(Meanings(n.children, row, nums))
  {
    var cs := n.children;
    assert Meanings(cs, row, nums) == seq(|cs|, i requires 0 <= i < |cs| => Meaning(cs[i], row, nums));
  }

  lemma {:induction false} CompileAllMeans(ns: seq<Node>, row: Row, nums: Numbers)
    requires CompileAll(ns, nums).Success?
    ensures MeanAll(CompileAll(ns, nums).value, row, nums, Meanings(ns, row, nums))
    decreases ns, 0
  {
    hide Compile, Meaning, Means;
    if ns != [] {
      CompilePreservesMeaning(ns[0], row, nums);
      CompileAllMeans(ns[1..], row, nums);
      assert Meanings(ns, row, nums)[1..] == Meanings(ns[1..], row, nums);
    }
  }
}
