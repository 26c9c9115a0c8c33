/** The WHERE clause of a search, and the statements it goes into. */
module Where {
  import opened Wrappers
  import opened Lexer
  import opened Syntax
  import opened Semantics
  import opened Sql
  import opened Numerals

  datatype Filters = Filters(query: string, since: Option<int>, until: Option<int>, limit: nat, after: Option<Cursor>)

  datatype SearchError = BadQuery(query: QueryError) | BadCompile(compile: CompileError)

  const DEFAULT_LIMIT: nat := 500

  function TimeBound(operator: string, bound: Option<int>): seq<Compiled> {
    match bound
    case None => []
    case Some(t) => [Compiled(TimeCompare(operator), [IntArg(t)])]
  }

  function QueryCondition(query: string, nums: Numbers): Result<seq<Compiled>, SearchError> {
    match Parse(query)
    case Failure(e) => Failure(BadQuery(e))
    case Success(None) => Success([])
    case Success(Some(n)) =>
      match Compile(n, nums)
      case Failure(e) => Failure(BadCompile(e))
      case Success(c) => Success([c])
  }

  /** The conditions common to every search. */
  function SearchWhere(f: Filters, nums: Numbers): Result<Compiled, SearchError> {
    var query :- QueryCondition(f.query, nums);
    Success(Joined([Compiled(Always, [])] + TimeBound(">=", f.since) + TimeBound("<=", f.until) + query))
  }

  /** A statement with its arguments: those of its select list, of its
      condition, and of its limit, in that order. */
  datatype Statement = Statement(selectParams: nat, where: Cond, limited: bool, args: seq<Arg>)

  predicate WellBound(s: Statement) {
    |s.args| == s.selectParams + Params(s.where) + if s.limited then 1 else 0
  }

  /** Whether the statement's condition holds of a row. */
  predicate Selects(s: Statement, row: Row, nums: Numbers)
    requires WellBound(s)
  {
    Eval(s.where, s.args[s.selectParams..s.selectParams + Params(s.where)], row, nums) == True
  }

  function CursorCondition(after: Option<Cursor>): seq<Compiled> {
    match after
    case None => []
    case Some(c) =>
      [Compiled(COr([TimeCompare("<"), CAnd([TimeCompare("="), IdCompare("<")])]),
                [IntArg(c.timestamp), IntArg(c.timestamp), IntArg(c.id)])]
  }

  function LimitArg(f: Filters): Arg {
    IntArg(if f.limit == 0 then DEFAULT_LIMIT else f.limit)
  }

  /** A page, newest first. */
  function SearchStatement(f: Filters, nums: Numbers): Result<Statement, SearchError> {
    var where :- SearchWhere(f, nums);
    var c := Joined([where] + CursorCondition(f.after));
    Success(Statement(0, c.cond, true, c.args + [LimitArg(f)]))
  }

  /** The rows that came after an id, oldest first. */
  function SearchAfterStatement(f: Filters, afterId: int, nums: Numbers): Result<Statement, SearchError> {
    var where :- SearchWhere(f, nums);
    var c := Joined([Compiled(IdCompare(">"), [IntArg(afterId)]), where]);
    Success(Statement(0, c.cond, true, c.args + [LimitArg(f)]))
  }

  /** The histogram's counts; its select list takes the start of the window and
      the number of bins per day. */
  function HistogramStatement(f: Filters, start: Arg, binsPerDay: Arg, nums: Numbers): Result<Statement, SearchError> {
    var where :- SearchWhere(f, nums);
    Success(Statement(2, where.cond, false, [start, binsPerDay] + where.args))
  }

  // ----- what the statements select

  predicate InWindow(f: Filters, row: Row) {
    && (f.since.Some? ==> f.since.value <= row.timestamp)
    && (f.until.Some? ==> row.timestamp <= f.until.value)
  }

  predicate BeforeCursor(after: Option<Cursor>, row: Row) {
    after.Some? ==>
      row.timestamp < after.value.timestamp || (row.timestamp == after.value.timestamp && row.id < after.value.id)
  }

  /** Whether a query keeps a row: its truth is neither false nor unknown. */
  ghost predicate Keeps(query: string, row: Row, nums: Numbers) {
    Parse(query).Success? && RootMeaning(Parse(query).value, row, nums) == True
  }

  ghost predicate Matching(f: Filters, row: Row, nums: Numbers) {
    InWindow(f, row) && Keeps(f.query, row, nums)
  }

  lemma KAllTrue(ts: seq<Truth>)
    ensures KAll(ts) == True <==> forall i :: 0 <= i < |ts| ==> ts[i] == True
  {
    if forall i :: 0 <= i < |ts| ==> ts[i] == True {
    } else {
      var i :| 0 <= i < |ts| && ts[i] != True;
      assert ts[i] in ts;
    }
  }

  lemma TimeBoundMeans(operator: string, bound: Option<int>, row: Row, nums: Numbers) returns (truths: seq<Truth>)
    ensures MeanAll(TimeBound(operator, bound), row, nums, truths)
    ensures truths == if bound.None? then [] else [Compared(operator, row.timestamp, bound.value)]
  {
    truths := if bound.None? then [] else [Compared(operator, row.timestamp, bound.value)];
  }

  lemma QueryConditionMeans(query: string, row: Row, nums: Numbers) returns (truths: seq<Truth>)
    requires QueryCondition(query, nums).Success?
    ensures MeanAll(QueryCondition(query, nums).value, row, nums, truths)
    ensures Keeps(query, row, nums) <==> KAll(truths) == True
  {
    hide Parse, Compile, Meaning, Means;
    match Parse(query).value
    case None => truths := []; KAllOne(True);
    case Some(n) =>
      CompilePreservesMeaning(n, row, nums);
      truths := [Meaning(n, row, nums)];
      KAllOne(Meaning(n, row, nums));
  }

  lemma MeanAllAppend(a: seq<Compiled>, b: seq<Compiled>, row: Row, nums: Numbers, ta: seq<Truth>, tb: seq<Truth>)
    requires MeanAll(a, row, nums, ta) && MeanAll(b, row, nums, tb)
    ensures MeanAll(a + b, row, nums, ta + tb)
  {
    hide Means;
  }

  lemma TruthsAppend(a: seq<Truth>, b: seq<Truth>)
    ensures KAll(a + b) == True <==> KAll(a) == True && KAll(b) == True
  {
    assert forall t :: t in a + b <==> t in a || t in b;
  }

  lemma WindowTruths(f: Filters, row: Row, since: seq<Truth>, until: seq<Truth>)
    requires since == if f.since.None? then [] else [Compared(">=", row.timestamp, f.since.value)]
    requires until == if f.until.None? then [] else [Compared("<=", row.timestamp, f.until.value)]
    ensures KAll(since) == True && KAll(until) == True <==> InWindow(f, row)
  {
    KAllOne(True);
    if f.since.Some? { KAllOne(since[0]); }
    if f.until.Some? { KAllOne(until[0]); }
  }

  /** The common condition holds of exactly the rows in the window that the
      query keeps, and binds one argument to each placeholder. */
  lemma SearchWhereMeans(f: Filters, row: Row, nums: Numbers)
    requires SearchWhere(f, nums).Success?
    ensures var c := SearchWhere(f, nums).value;
            |c.args| == Params(c.cond) && (Eval(c.cond, c.args, row, nums) == True <==> Matching(f, row, nums))
  {
    hide QueryCondition, Keeps, KAll, Joined, MeanAll, Compared;
    var s := TimeBoundMeans(">=", f.since, row, nums);
    var u := TimeBoundMeans("<=", f.until, row, nums);
    var q := QueryConditionMeans(f.query, row, nums);
    var query := QueryCondition(f.query, nums).value;
    var always := [Compiled(Always, [])];
    AlwaysMeans(row, nums);
    MeanAllAppend(always, TimeBound(">=", f.since), row, nums, [True], s);
    MeanAllAppend(always + TimeBound(">=", f.since), TimeBound("<=", f.until), row, nums, [True] + s, u);
    MeanAllAppend(always + TimeBound(">=", f.since) + TimeBound("<=", f.until), query, row, nums, [True] + s + u, q);
    JoinedMeans(always + TimeBound(">=", f.since) + TimeBound("<=", f.until) + query, row, nums, [True] + s + u + q);
    TruthsAppend([True] + s + u, q);
    TruthsAppend([True] + s, u);
    TruthsAppend([True], s);
    KAllOne(True);
    WindowTruths(f, row, s, u);
  }

  lemma AlwaysMeans(row: Row, nums: Numbers)
    ensures MeanAll([Compiled(Always, [])], row, nums, [True])
  {
  }

  lemma WhereMeans(f: Filters, row: Row, nums: Numbers) returns (t: Truth)
    requires SearchWhere(f, nums).Success?
    ensures Means(SearchWhere(f, nums).value, row, nums, t) && (t == True <==> Matching(f, row, nums))
  {
    hide SearchWhere, Matching, Eval;
    SearchWhereMeans(f, row, nums);
    var c := SearchWhere(f, nums).value;
    t := Eval(c.cond, c.args, row, nums);
  }

  lemma CursorMeans(after: Option<Cursor>, row: Row, nums: Numbers) returns (truths: seq<Truth>)
    ensures MeanAll(CursorCondition(after), row, nums, truths)
    ensures KAll(truths) == True <==> BeforeCursor(after, row)
  {
    hide Joined;
    if after.None? {
      truths := [];
    } else {
      var c := after.value;
      var earlier, same := Compared("<", row.timestamp, c.timestamp), Compared("=", row.timestamp, c.timestamp);
      var before := Compared("<", row.id, c.id);
      CursorEval(c, row, nums);
      truths := [KAny([earlier, KAll([same, before])])];
      KAllOne(truths[0]);
    }
  }

  lemma CursorEval(c: Cursor, row: Row, nums: Numbers)
    ensures var cond := COr([TimeCompare("<"), CAnd([TimeCompare("="), IdCompare("<")])]);
            var args := [IntArg(c.timestamp), IntArg(c.timestamp), IntArg(c.id)];
            var t := KAny([Compared("<", row.timestamp, c.timestamp),
                           KAll([Compared("=", row.timestamp, c.timestamp), Compared("<", row.id, c.id)])]);
            && Params(cond) == 3 && Eval(cond, args, row, nums) == t
            && (t == True <==> BeforeCursor(Some(c), row))
  {
    var earlier := Compiled(TimeCompare("<"), [IntArg(c.timestamp)]);
    var same := Compiled(TimeCompare("="), [IntArg(c.timestamp)]);
    var before := Compiled(IdCompare("<"), [IntArg(c.id)]);
    var te, ts := Compared("<", row.timestamp, c.timestamp), Compared("=", row.timestamp, c.timestamp);
    var tb := Compared("<", row.id, c.id);
    JoinedMeans([same, before], row, nums, [ts, tb]);
    JoinedPair(same, before);
    JoinedMeans([earlier, Joined([same, before])], row, nums, [te, KAll([ts, tb])]);
    JoinedPair(earlier, Joined([same, before]));
    assert [IntArg(c.timestamp)] + ([IntArg(c.timestamp)] + [IntArg(c.id)])
        == [IntArg(c.timestamp), IntArg(c.timestamp), IntArg(c.id)];
    TruthTable(te, ts, tb);
  }

  lemma JoinedPair(a: Compiled, b: Compiled)
    ensures Conds([a, b]) == [a.cond, b.cond] && ArgsOf([a, b]) == a.args + b.args
  {
    assert [a, b][1..] == [b] && [b][1..] == [];
    assert ArgsOf([b]) == b.args + ArgsOf([]) == b.args;
  }

  lemma TruthTable(a: Truth, b: Truth, c: Truth)
    ensures KAny([a, KAll([b, c])]) == True <==> a == True || (b == True && c == True)
  {
    assert forall t :: t in [b, c] <==> t == b || t == c;
    assert forall t :: t in [a, KAll([b, c])] <==> t == a || t == KAll([b, c]);
  }

  /** A page statement binds every placeholder and selects exactly the matching
      rows beyond the cursor. */
  lemma SearchSelects(f: Filters, row: Row, nums: Numbers)
    requires SearchStatement(f, nums).Success?
    ensures var s := SearchStatement(f, nums).value;
            && WellBound(s) && s.args[|s.args| - 1] == LimitArg(f)
            && (Selects(s, row, nums) <==> Matching(f, row, nums) && BeforeCursor(f.after, row))
  {
    hide SearchWhere, Matching, KAll, Joined, CursorCondition, Eval, Params;
    var t := WhereMeans(f, row, nums);
    var c := CursorMeans(f.after, row, nums);
    var where := SearchWhere(f, nums).value;
    MeanAllAppend([where], CursorCondition(f.after), row, nums, [t], c);
    JoinedMeans([where] + CursorCondition(f.after), row, nums, [t] + c);
    TruthsAppend([t], c);
    KAllOne(t);
    var joined := Joined([where] + CursorCondition(f.after));
    assert (joined.args + [LimitArg(f)])[0..|joined.args|] == joined.args;
  }

  lemma SearchAfterSelects(f: Filters, afterId: int, row: Row, nums: Numbers)
    requires SearchAfterStatement(f, afterId, nums).Success?
    ensures var s := SearchAfterStatement(f, afterId, nums).value;
            && WellBound(s) && s.args[|s.args| - 1] == LimitArg(f)
            && (Selects(s, row, nums) <==> Matching(f, row, nums) && afterId < row.id)
  {
    hide SearchWhere, Matching, KAll, Joined;
    var t := WhereMeans(f, row, nums);
    var where := SearchWhere(f, nums).value;
    var later := Compiled(IdCompare(">"), [IntArg(afterId)]);
    JoinedMeans([later, where], row, nums, [Known(row.id > afterId), t]);
    KAllTrue([Known(row.id > afterId), t]);
    var joined := Joined([later, where]);
    assert (joined.args + [LimitArg(f)])[0..|joined.args|] == joined.args;
    assert [Known(row.id > afterId), t][0] == Known(row.id > afterId) && [Known(row.id > afterId), t][1] == t;
  }

  lemma HistogramSelects(f: Filters, start: Arg, binsPerDay: Arg, row: Row, nums: Numbers)
    requires HistogramStatement(f, start, binsPerDay, nums).Success?
    ensures var s := HistogramStatement(f, start, binsPerDay, nums).value;
            && WellBound(s) && s.args[..2] == [start, binsPerDay]
            && (Selects(s, row, nums) <==> Matching(f, row, nums))
  {
    hide SearchWhere, Matching, Eval;
    SearchWhereMeans(f, row, nums);
    var where := SearchWhere(f, nums).value;
    assert ([start, binsPerDay] + where.args)[2..2 + |where.args|] == where.args;
  }
}
