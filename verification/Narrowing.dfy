/** Which rows are left when a filter is added to a query. */
module Narrowing {
  import opened Wrappers
  import opened Text
  import opened Syntax
  import opened Quoting
  import opened Like
  import opened Rewrite
  import opened Semantics
  import opened FilterText
  import opened FilterMeaning
  import opened Columns
  import opened Where
  import Sql

  lemma KAllSnoc(ts: seq<Truth>, t: Truth)
    ensures KAll(ts + [t]) == True <==> KAll(ts) == True && t == True
  {
    assert (ts + [t])[|ts|] == t;
    assert forall x :: x in ts ==> x in ts + [t];
    assert forall x :: x in ts + [t] ==> x in ts || x == t;
  }

  /** The truth of the term a filter adds. */
  ghost function FilterTruth(field: string, value: string, exclude: bool, row: Row): Truth {
    var t := TermMeaning(field, value, NeedsQuotes(value), row);
    if exclude then KNot(t) else t
  }

  /** A filter keeps the rows that the query keeps and its term is true of. */
  lemma FilterKeeps(query: string, root: Option<Node>, field: string, value: string, exclude: bool,
                    row: Row, nums: Numbers)
    requires Parse(query) == Success(root) && Admitted(field) && ReadsAsItself(field)
    requires FilterHolds(query, root, field, value, exclude)
    ensures WithFilter(query, field, value, exclude).Success?
    ensures Keeps(WithFilter(query, field, value, exclude).value, row, nums) <==>
            Keeps(query, row, nums) && FilterTruth(field, value, exclude, row) == True
  {
    hide Parse, Conjuncts, TermMeaning, WithFilter, KAll, RootMeaning, Admitted, ReadsAsItself, FilterHolds, NeedsQuotes;
    AddFilterPreservesMeaning(query, root, field, value, exclude, row, nums);
    ConjunctsMean(root, row, nums);
    KAllSnoc(Meanings(Conjuncts(root), row, nums), Meaning(FilterTree(field, value, exclude), row, nums));
    assert Meaning(FilterTree(field, value, exclude), row, nums) == FilterTruth(field, value, exclude, row);
  }

  /** The value as it is, but for letter case: the whole text, or a part of it. */
  ghost predicate Says(text: string, contains: bool, value: string) {
    if contains then exists i, j :: 0 <= i <= j <= |text| && SameText(value, text[i..j]) else SameText(value, text)
  }

  /** A value that a filter writes is taken literally, and never as a star. */
  lemma WrittenValueMeans(value: string, contains: bool, text: string)
    ensures TextMeaning(value, NeedsQuotes(value), contains, text) == Known(Says(text, contains, value))
  {
    hide Glob, SameText, NeedsQuotes;
    WrittenIsLiteral(value);
    if !NeedsQuotes(value) {
      forall t: string ensures Glob(value, t) <==> SameText(value, t) {
        Sql.PlainGlob(value, t);
      }
    }
  }

  lemma WrittenIsLiteral(value: string)
    ensures !NeedsQuotes(value) ==> !HasWildcards(value) && '*' !in value && '?' !in value && value != "*"
  {
    assert forall c :: c in value && c in {'*', '?'} ==> c in SPECIAL;
  }

  /** Filtering on a field of the row keeps the rows, of those that the query keeps,
      that have the value there; excluding it keeps the others. */
  lemma ColumnFilterKeeps(query: string, root: Option<Node>, field: string, value: string, exclude: bool,
                          contains: bool, column: Row -> string, row: Row, nums: Numbers)
    requires Parse(query) == Success(root) && Admitted(field) && ReadsAsItself(field)
    requires FilterHolds(query, root, field, value, exclude) && NamesColumn(field, contains, column)
    ensures WithFilter(query, field, value, exclude).Success?
    ensures Keeps(WithFilter(query, field, value, exclude).value, row, nums) <==>
            Keeps(query, row, nums) && (if exclude then !Says(column(row), contains, value)
                                        else Says(column(row), contains, value))
  {
    hide Parse, TermMeaning, WithFilter, Keeps, Admitted, ReadsAsItself, FilterHolds, NeedsQuotes, TextMeaning, Says;
    FilterKeeps(query, root, field, value, exclude, row, nums);
    WrittenValueMeans(value, contains, column(row));
  }

  /** The row fields that filters are offered for. */
  function FilterColumn(field: string): Option<Row -> string> {
    match field
    case "service" => Some((r: Row) => r.job)
    case "task" => Some((r: Row) => r.task)
    case "stream" => Some((r: Row) => r.stream)
    case "alloc" => Some((r: Row) => r.allocId)
    case _ => None
  }

  /** So filtering on a service, a task, a stream or an allocation keeps exactly the
      rows of that one, and excluding it exactly the others. */
  lemma RowFilterKeeps(query: string, root: Option<Node>, field: string, value: string, exclude: bool,
                       row: Row, nums: Numbers)
    requires Parse(query) == Success(root) && FilterColumn(field).Some?
    requires FilterHolds(query, root, field, value, exclude)
    ensures WithFilter(query, field, value, exclude).Success?
    ensures Keeps(WithFilter(query, field, value, exclude).value, row, nums) <==>
            Keeps(query, row, nums) && (SameText(value, FilterColumn(field).value(row)) <==> !exclude)
  {
    hide Parse, WithFilter, Keeps, FilterHolds, NamesColumn, SameText;
    NamesMean(field);
    RowFieldsAdmitted(field);
    ColumnFilterKeeps(query, root, field, value, exclude, false, FilterColumn(field).value, row, nums);
  }

  lemma RowFieldsAdmitted(field: string)
    requires FilterColumn(field).Some?
    ensures Admitted(field) && ReadsAsItself(field) && NormalizeField(field) == field
  {
    hide Admitted, ReadsAsItself, NormalizeField;
    LettersAdmitted(field);
  }

  lemma LettersAdmitted(field: string)
    requires field != "" && forall i :: 0 <= i < |field| ==> 'a' <= field[i] <= 'z'
    ensures Admitted(field) && ReadsAsItself(field) && NormalizeField(field) == field
  {
    hide IsBlank, NormalizeField;
    LetterSpells(field);
    BlankMeansAllSpace(field);
    NamesInAnyCase(field);
    assert !IsSpace(field[0]);
    assert forall c :: c in field ==> 'a' <= c <= 'z';
    assert field != "AND" && field != "OR" && field != "NOT";
  }

  lemma LetterSpells(field: string)
    requires forall i :: 0 <= i < |field| ==> 'a' <= field[i] <= 'z'
    ensures Lower(field) == field
    ensures field != "AND" && field != "OR" && field != "NOT"
  {
    assert "AND"[0] == 'A' && "OR"[0] == 'O' && "NOT"[0] == 'N';
  }

  /** Filtering on an attribute keeps the rows that have it with that value. A row
      without the attribute is kept by neither filter. */
  lemma AttributeFilterKeeps(query: string, root: Option<Node>, field: string, value: string, exclude: bool,
                             row: Row, nums: Numbers)
    requires Parse(query) == Success(root) && Admitted(field) && ReadsAsItself(field)
    requires FilterHolds(query, root, field, value, exclude) && NormalizeField(field) !in RESERVED
    ensures WithFilter(query, field, value, exclude).Success?
    ensures var text := AttributeText(row, NormalizeField(field));
            Keeps(WithFilter(query, field, value, exclude).value, row, nums) <==>
            Keeps(query, row, nums) && text.Some? && (SameText(value, text.value) <==> !exclude)
  {
    hide Parse, TermMeaning, WithFilter, Keeps, Admitted, ReadsAsItself, FilterHolds, NeedsQuotes, SameText, Glob,
         AttributeText, NormalizeField, HasWildcards;
    FilterKeeps(query, root, field, value, exclude, row, nums);
    OtherNamesMean(field, value, NeedsQuotes(value), row);
    WrittenIsLiteral(value);
    var text := AttributeText(row, NormalizeField(field));
    if text.Some? && !NeedsQuotes(value) {
      Sql.PlainGlob(value, text.value);
    }
    NoStarWritten(value);
  }

  lemma NoStarWritten(value: string)
    ensures !IsExistence(value, NeedsQuotes(value))
  {
    assert NeedsQuotes("*") by { assert '*' in "*" && '*' in SPECIAL; }
  }
}
