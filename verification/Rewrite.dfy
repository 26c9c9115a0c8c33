/** Editing a query as text: reading a facet selection out of it, replacing the
    selection, and adding a filter. */
module Rewrite {
  import opened Wrappers
  import opened Text
  import opened Lexer
  import opened Syntax
  import opened Spans
  import opened Quoting
  import opened FieldClauses
  import opened Levels
  import Parser

  datatype Mode = SelectAll | SelectInclude | SelectExclude | SelectCustom

  /** The state of a facet's checkboxes, as a rule for its values. */
  datatype Selection = Selection(mode: Mode, values: seq<string>)

  datatype RewriteError =
    | UnknownField(field: string)
    | InvalidField(field: string)
    | BadQuery(error: QueryError)
    | CannotSet(mode: Mode)

  /** The names the query language accepts for a facet field. */
  function Aliases(field: string): Option<seq<string>> {
    match field
    case "service" => Some(["service", "job"])
    case "level" => Some(["level", "status"])
    case _ => None
  }

  function NormalizeField(field: string): string {
    var f := TrimSpace(field);
    if "@" <= f || "#" <= f then f else Lower(f)
  }

  // ----- which clauses test a field

  datatype FieldUsage = FieldUnused | FieldOnly | FieldMixed

  /** Some leaf of the clause tests one of the fields. */
  predicate OnField(n: Node, aliases: seq<string>) {
    match n
    case Not(_, _, _, child) => OnField(child, aliases)
    case And(_, _, _, cs) => exists i | 0 <= i < |cs| :: OnField(cs[i], aliases)
    case Or(_, _, _, cs) => exists i | 0 <= i < |cs| :: OnField(cs[i], aliases)
    case _ => NormalizeField(n.field) in aliases
  }

  /** Some leaf of the clause tests another field. */
  predicate OffField(n: Node, aliases: seq<string>) {
    match n
    case Not(_, _, _, child) => OffField(child, aliases)
    case And(_, _, _, cs) => exists i | 0 <= i < |cs| :: OffField(cs[i], aliases)
    case Or(_, _, _, cs) => exists i | 0 <= i < |cs| :: OffField(cs[i], aliases)
    case _ => NormalizeField(n.field) !in aliases
  }

  function FieldUse(n: Node, aliases: seq<string>): FieldUsage {
    if !OnField(n, aliases) then FieldUnused
    else if OffField(n, aliases) then FieldMixed
    else FieldOnly
  }

  /** The walk over a clause's leaves that raises the two flags. */
  method Walk(n: Node, aliases: seq<string>, on0: bool, off0: bool) returns (on: bool, off: bool)
    ensures on == (on0 || OnField(n, aliases)) && off == (off0 || OffField(n, aliases))
    decreases n, 0
  {
    hide NormalizeField;
    match n {
      case Not(_, _, _, child) =>
        on, off := Walk(child, aliases, on0, off0);
      case And(_, _, _, cs) =>
        on, off := WalkAll(n, cs, aliases, on0, off0);
      case Or(_, _, _, cs) =>
        on, off := WalkAll(n, cs, aliases, on0, off0);
      case _ =>
        on, off := on0, off0;
        if NormalizeField(n.field) in aliases {
          on := true;
        } else {
          off := true;
        }
    }
  }

  method WalkAll(n: Node, cs: seq<Node>, aliases: seq<string>, on0: bool, off0: bool) returns (on: bool, off: bool)
    requires (n.And? || n.Or?) && n.children == cs
    ensures on == (on0 || exists i | 0 <= i < |cs| :: OnField(cs[i], aliases))
    ensures off == (off0 || exists i | 0 <= i < |cs| :: OffField(cs[i], aliases))
    decreases n, 0, 0
  {
    hide OnField, OffField;
    on, off := on0, off0;
    for k := 0 to |cs|
      invariant on == (on0 || exists i | 0 <= i < k :: OnField(cs[i], aliases))
      invariant off == (off0 || exists i | 0 <= i < k :: OffField(cs[i], aliases))
    {
      on, off := Walk(cs[k], aliases, on, off);
    }
  }

  method FieldUseOf(n: Node, aliases: seq<string>) returns (u: FieldUsage)
    ensures u == FieldUse(n, aliases)
  {
    var on, off := Walk(n, aliases, false, false);
    if !on {
      return FieldUnused;
    }
    return if off then FieldMixed else FieldOnly;
  }

  // ----- rebuilding a query from clauses

  ghost predicate InText(query: string, c: Node) {
    0 <= c.pos <= c.end <= |query|
  }

  ghost predicate AllInText(query: string, cs: seq<Node>) {
    forall i :: 0 <= i < |cs| ==> InText(query, cs[i])
  }

  /** An Or that binds looser than the And between clauses. */
  predicate Loose(c: Node) {
    c.Or? && !c.grouped
  }

  function PartOf(query: string, c: Node, many: bool): string
    requires InText(query, c)
  {
    var slice := query[c.pos..c.end];
    if many && Loose(c) then "(" + slice + ")" else slice
  }

  function PartsOf(query: string, cs: seq<Node>, many: bool): (r: seq<string>)
    requires AllInText(query, cs)
    ensures |r| == |cs|
  {
    seq(|cs|, i requires 0 <= i < |cs| => PartOf(query, cs[i], many))
  }

  function Extra(extra: string): seq<string> {
    if extra != "" then [extra] else []
  }

  function JoinedClauses(query: string, kept: seq<Node>, extra: string): string
    requires AllInText(query, kept)
  {
    Join(PartsOf(query, kept, |kept| + |Extra(extra)| > 1) + Extra(extra), " ")
  }

  method WrapLoose(query: string, kept: seq<Node>, extra: seq<string>, bare: seq<string>) returns (parts: seq<string>)
    requires AllInText(query, kept) && bare == PartsOf(query, kept, false) + extra
    ensures parts == PartsOf(query, kept, true) + extra
  {
    parts := bare;
    for i := 0 to |kept|
      invariant |parts| == |bare|
      invariant forall k :: 0 <= k < |kept| ==> parts[k] == PartOf(query, kept[k], k < i)
      invariant parts[|kept|..] == extra
    {
      if Loose(kept[i]) {
        parts := parts[i := "(" + parts[i] + ")"];
      }
    }
    assert parts == PartsOf(query, kept, true) + extra;
  }

  method JoinClauses(query: string, kept: seq<Node>, extra: string) returns (r: string)
    requires AllInText(query, kept)
    ensures r == JoinedClauses(query, kept, extra)
  {
    var parts: seq<string> := [];
    for i := 0 to |kept|
      invariant parts == PartsOf(query, kept[..i], false)
    {
      parts := parts + [query[kept[i].pos..kept[i].end]];
      assert kept[..i + 1][..i] == kept[..i];
    }
    assert kept[..|kept|] == kept;
    if extra != "" {
      parts := parts + [extra];
    }
    if |parts| > 1 {
      parts := WrapLoose(query, kept, Extra(extra), parts);
    }
    assert parts == PartsOf(query, kept, |kept| + |Extra(extra)| > 1) + Extra(extra);
    return Join(parts, " ");
  }

  // ----- setting a selection

  /** The clauses that do not test only the field. */
  function KeptClauses(cs: seq<Node>, aliases: seq<string>): seq<Node> {
    if cs == [] then []
    else (if FieldUse(cs[0], aliases) != FieldOnly then [cs[0]] else []) + KeptClauses(cs[1..], aliases)
  }

  /** The clause that states a selection; empty when nothing needs saying. */
  function SelectionClause(field: string, sel: Selection): Result<string, RewriteError> {
    match sel.mode
    case SelectAll => Success("")
    case SelectInclude =>
      Success(if sel.values == [] then "-" + field + ":*" else FieldClause(field, sel.values))
    case SelectExclude =>
      Success(if sel.values == [] then "" else "-" + FieldClause(field, sel.values))
    case SelectCustom => Failure(CannotSet(sel.mode))
  }

  lemma {:induction false} KeptAreClauses(cs: seq<Node>, aliases: seq<string>)
    ensures forall c :: c in KeptClauses(cs, aliases) <==> c in cs && FieldUse(c, aliases) != FieldOnly
  {
    hide FieldUse;
    if cs != [] {
      KeptAreClauses(cs[1..], aliases);
    }
  }

  lemma ConjunctsInText(query: string, root: Option<Node>)
    requires Parse(query) == Success(root)
    ensures AllInText(query, Conjuncts(root))
  {
    hide Parse, Lex, Parser.S.ParseTokens, OnBoundaries;
    if root.Some? {
      ParseStep(query);
      SpanTheorem(query, Lex(query, 0).value, root.value);
    }
  }

  lemma KeptInText(query: string, cs: seq<Node>, aliases: seq<string>)
    requires AllInText(query, cs)
    ensures AllInText(query, KeptClauses(cs, aliases))
  {
    hide FieldUse, KeptClauses;
    KeptAreClauses(cs, aliases);
    forall i | 0 <= i < |KeptClauses(cs, aliases)|
      ensures InText(query, KeptClauses(cs, aliases)[i])
    {
      assert KeptClauses(cs, aliases)[i] in cs;
    }
  }

  /** The query rewritten so that the field keeps exactly the selection. */
  function WithSelection(query: string, field: string, sel: Selection): Result<string, RewriteError> {
    match Aliases(field)
    case None => Failure(UnknownField(field))
    case Some(aliases) =>
      match Parse(query)
      case Failure(e) => Failure(BadQuery(e))
      case Success(root) =>
        var clause :- SelectionClause(field, sel);
        ConjunctsInText(query, root);
        KeptInText(query, Conjuncts(root), aliases);
        Success(JoinedClauses(query, KeptClauses(Conjuncts(root), aliases), clause))
  }

  method SetSelection(query: string, field: string, sel: Selection) returns (r: Result<string, RewriteError>)
    ensures r == WithSelection(query, field, sel)
  {
    hide Parse, FieldUse, JoinedClauses, Conjuncts;
    if Aliases(field).None? {
      return Failure(UnknownField(field));
    }
    var aliases := Aliases(field).value;
    var parsed := Parser.ParseLogQuery(query);
    if parsed.Failure? {
      return Failure(BadQuery(parsed.error));
    }
    var clauses := Conjuncts(parsed.value);
    var kept: seq<Node> := [];
    for i := 0 to |clauses|
      invariant kept + KeptClauses(clauses[i..], aliases) == KeptClauses(clauses, aliases)
    {
      var use := FieldUseOf(clauses[i], aliases);
      if use != FieldOnly {
        kept := kept + [clauses[i]];
      }
      assert clauses[i..][1..] == clauses[i + 1..];
    }
    assert kept + [] == kept;
    var clause :- SelectionClause(field, sel);
    ConjunctsInText(query, parsed.value);
    KeptInText(query, clauses, aliases);
    var text := JoinClauses(query, kept, clause);
    return Success(text);
  }

  // ----- adding a filter

  const FIELD_BREAKERS: set<char> := {' ', '\t', '\r', '\n', '(', ')', ':', '"'}

  function FilterClause(field: string, value: string, exclude: bool): string {
    (if exclude then "-" else "") + field + ":" + QuoteValue(value)
  }

  /** The query narrowed to rows where the field has, or has not, the value. */
  function WithFilter(query: string, field: string, value: string, exclude: bool): Result<string, RewriteError> {
    if IsBlank(field) || ContainsAny(field, FIELD_BREAKERS) then Failure(InvalidField(field))
    else
      match Parse(query)
      case Failure(e) => Failure(BadQuery(e))
      case Success(root) =>
        ConjunctsInText(query, root);
        Success(JoinedClauses(query, Conjuncts(root), FilterClause(field, value, exclude)))
  }

  method AddFilter(query: string, field: string, value: string, exclude: bool)
    returns (r: Result<string, RewriteError>)
    ensures r == WithFilter(query, field, value, exclude)
  {
    hide Parse, JoinedClauses, Conjuncts, QuoteValue;
    if TrimSpace(field) == "" || ContainsAny(field, FIELD_BREAKERS) {
      return Failure(InvalidField(field));
    }
    var parsed := Parser.ParseLogQuery(query);
    if parsed.Failure? {
      return Failure(BadQuery(parsed.error));
    }
    var clause := field + ":" + QuoteValue(value);
    if exclude {
      clause := "-" + clause;
    }
    assert clause == FilterClause(field, value, exclude);
    ConjunctsInText(query, parsed.value);
    var text := JoinClauses(query, Conjuncts(parsed.value), clause);
    return Success(text);
  }

  // ----- reading a selection

  /** The values of a clause like `field:v` or `field:(a OR b)`, or of its
      negation. */
  datatype FacetTerms = FacetTerms(negated: bool, values: seq<string>)

  predicate IsLiteral(n: Node) {
    n.Term? && (n.quoted || n.value == "*" || !ContainsAny(n.value, {'*', '?'}))
  }

  /** The terms a clause of that shape consists of. */
  function TermsIn(n: Node): seq<Node> {
    var inner := if n.Not? then n.child else n;
    if inner.Or? then inner.children else [inner]
  }

  function FacetValues(n: Node): Option<FacetTerms> {
    var terms := TermsIn(n);
    if forall i | 0 <= i < |terms| :: IsLiteral(terms[i]) then
      Some(FacetTerms(n.Not?, seq(|terms|, i requires 0 <= i < |terms| => terms[i].value)))
    else None
  }

  method FacetValuesOf(n: Node) returns (r: Option<FacetTerms>)
    ensures r == FacetValues(n)
  {
    var negated, inner := false, n;
    if n.Not? {
      negated, inner := true, n.child;
    }
    var terms := [inner];
    if inner.Or? {
      terms := inner.children;
    }
    assert terms == TermsIn(n);
    var values: seq<string> := [];
    for i := 0 to |terms|
      invariant forall k :: 0 <= k < i ==> IsLiteral(terms[k])
      invariant |values| == i && forall k :: 0 <= k < i ==> values[k] == terms[k].value
    {
      if !IsLiteral(terms[i]) {
        return None;
      }
      values := values + [terms[i].value];
    }
    assert values == seq(|terms|, i requires 0 <= i < |terms| => terms[i].value);
    return Some(FacetTerms(negated, values));
  }

  /** The bucket a level value stands for. */
  function FacetLevel(value: string): string {
    if value == "*" then value
    else if LevelsForBucket(value) != [] then BucketName(value)
    else if IsCatchAllLevel(value) then "ok"
    else LevelBucket(value)
  }

  function AddNew(values: seq<string>, value: string): seq<string> {
    if value in values then values else values + [value]
  }

  /** Level values as buckets, each once; other fields' values as they are. */
  function NormalizedValues(field: string, values: seq<string>): seq<string> {
    if field != "level" then values
    else if values == [] then []
    else AddNew(NormalizedValues(field, values[..|values| - 1]), FacetLevel(values[|values| - 1]))
  }

  method NormalizeFacetValues(field: string, values: seq<string>) returns (r: seq<string>)
    ensures r == NormalizedValues(field, values)
  {
    hide FacetLevel;
    if field != "level" {
      return values;
    }
    r := [];
    for i := 0 to |values|
      invariant r == NormalizedValues(field, values[..i])
    {
      var value := FacetLevel(values[i]);
      if value !in r {
        r := r + [value];
      }
      assert values[..i + 1][..i] == values[..i];
    }
    assert values[..|values|] == values;
  }

  /** What the clauses on a field say: sets of values to keep, values to drop,
      and whether nothing is kept. */
  datatype Collected = Collected(includes: seq<seq<string>>, excludes: seq<string>, none: bool)

  /** One more clause; None when a list of values cannot show it. */
  function CollectOne(c: Collected, n: Node, field: string, aliases: seq<string>): Option<Collected> {
    match FieldUse(n, aliases)
    case FieldUnused => Some(c)
    case FieldMixed => None
    case FieldOnly =>
      match FacetValues(n)
      case None => None
      case Some(terms) =>
        var values := NormalizedValues(field, terms.values);
        if "*" in values then Some(if terms.negated then c.(none := true) else c)
        else if terms.negated then Some(c.(excludes := c.excludes + values))
        else Some(c.(includes := c.includes + [values]))
  }

  function Collect(c: Collected, ns: seq<Node>, field: string, aliases: seq<string>): Option<Collected>
    decreases |ns|
  {
    if ns == [] then Some(c)
    else
      match CollectOne(c, ns[0], field, aliases)
      case None => None
      case Some(next) => Collect(next, ns[1..], field, aliases)
  }

  /** The values that are, or are not, among others. */
  function Filter(values: seq<string>, others: seq<string>, among: bool): seq<string> {
    if values == [] then []
    else (if (values[0] in others) == among then [values[0]] else []) + Filter(values[1..], others, among)
  }

  function Intersect(kept: seq<string>, sets: seq<seq<string>>): seq<string>
    decreases |sets|
  {
    if sets == [] then kept else Intersect(Filter(kept, sets[0], true), sets[1..])
  }

  function Concluded(c: Collected): Selection {
    if c.none then Selection(SelectInclude, [])
    else if c.includes != [] then
      Selection(SelectInclude, Filter(Intersect(c.includes[0], c.includes[1..]), c.excludes, false))
    else if c.excludes != [] then Selection(SelectExclude, c.excludes)
    else Selection(SelectAll, [])
  }

  /** The selection the clauses of a query make on a field. */
  function SelectionIn(ns: seq<Node>, field: string, aliases: seq<string>): Selection {
    match Collect(Collected([], [], false), ns, field, aliases)
    case None => Selection(SelectCustom, [])
    case Some(c) => Concluded(c)
  }

  function SelectionFrom(query: string, field: string): Result<Selection, RewriteError> {
    match Aliases(field)
    case None => Failure(UnknownField(field))
    case Some(aliases) =>
      match Parse(query)
      case Failure(e) => Failure(BadQuery(e))
      case Success(root) => Success(SelectionIn(Conjuncts(root), field, aliases))
  }

  method DeleteFunc(values: seq<string>, others: seq<string>, among: bool) returns (r: seq<string>)
    ensures r == Filter(values, others, among)
  {
    r := [];
    for i := 0 to |values|
      invariant r + Filter(values[i..], others, among) == Filter(values, others, among)
    {
      if (values[i] in others) == among {
        r := r + [values[i]];
      }
      assert values[i..][1..] == values[i + 1..];
    }
    assert r + [] == r;
  }

  method Conclude(c: Collected) returns (r: Selection)
    ensures r == Concluded(c)
  {
    if c.none {
      return Selection(SelectInclude, []);
    }
    if c.includes != [] {
      var kept, sets := c.includes[0], c.includes[1..];
      for i := 0 to |sets|
        invariant Intersect(kept, sets[i..]) == Intersect(c.includes[0], sets)
      {
        assert sets[i..][0] == sets[i] && sets[i..][1..] == sets[i + 1..];
        kept := DeleteFunc(kept, sets[i], true);
      }
      kept := DeleteFunc(kept, c.excludes, false);
      return Selection(SelectInclude, kept);
    }
    if c.excludes != [] {
      return Selection(SelectExclude, c.excludes);
    }
    return Selection(SelectAll, []);
  }

  method SelectionOf(query: string, field: string) returns (r: Result<Selection, RewriteError>)
    ensures r == SelectionFrom(query, field)
  {
    hide Parse, FieldUse, FacetValues, Conjuncts, Concluded, NormalizedValues;
    if Aliases(field).None? {
      return Failure(UnknownField(field));
    }
    var aliases := Aliases(field).value;
    var parsed := Parser.ParseLogQuery(query);
    if parsed.Failure? {
      return Failure(BadQuery(parsed.error));
    }
    var clauses := Conjuncts(parsed.value);
    var includes: seq<seq<string>>, excludes: seq<string>, none := [], [], false;
    for i := 0 to |clauses|
      invariant Collect(Collected(includes, excludes, none), clauses[i..], field, aliases)
             == Collect(Collected([], [], false), clauses, field, aliases)
    {
      assert clauses[i..][0] == clauses[i] && clauses[i..][1..] == clauses[i + 1..];
      var use := FieldUseOf(clauses[i], aliases);
      if use == FieldUnused {
        continue;
      }
      if use == FieldMixed {
        return Success(Selection(SelectCustom, []));
      }
      var terms := FacetValuesOf(clauses[i]);
      if terms.None? {
        return Success(Selection(SelectCustom, []));
      }
      var values := NormalizeFacetValues(field, terms.value.values);
      if terms.value.negated && "*" in values {
        none := true;
      } else if terms.value.negated {
        excludes := excludes + values;
      } else if "*" in values {
      } else {
        includes := includes + [values];
      }
    }
    var sel := Conclude(Collected(includes, excludes, none));
    return Success(sel);
  }
}
