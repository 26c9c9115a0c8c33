/** Concrete queries on which a rewrite does not do what it is for. */
module Limits {
  import opened Wrappers
  import opened Text
  import opened Lexer
  import opened Syntax
  import opened Locality
  import opened Spans
  import opened Clauses
  import opened Quoting
  import opened Rewrite
  import opened RewriteText
  import opened SelectionText
  import opened SelectionMeaning
  import FieldClauses
  import LexerFacts

  /** A query of one open word. */
  lemma OpenWordReads(at: int)
    ensures Lex("a\\", at) == Success([Token(Word, "a\\", at, at + 2), LexerFacts.EndToken(at + 2)])
    ensures Dangling("a\\")
  {
    var t := "a\\";
    assert t[1..] == "\\";
    assert ReadWord("\\") == Lexeme(Word, "\\", 1, true);
    ReadWordStep(t);
    assert ['a'] + "\\" == t;
    assert LexOne(t) == Some(Lexeme(Word, "a\\", 2, true));
    LexLast(t, at, Lexeme(Word, "a\\", 2, true));
  }

  lemma OneWordParses(query: string, value: string)
    requires Lex(query, 0) == Success([Token(Word, value, 0, |query|), LexerFacts.EndToken(|query|)]) && !IsBlank(query)
    ensures Parse(query) == Success(Some(Term(0, |query|, false, "", value, false)))
  {
    hide Lex, IsBlank, ParseTokens, ParseOr, ParseUnary;
    ParseStep(query);
    var ts := Lex(query, 0).value;
    var c := Term(0, |query|, false, "", value, false);
    WordAlone(ts, value, |query|);
    UnaryAlone(ts, c);
    AsQueryParses(ts, c);
  }

  lemma WordAlone(ts: seq<Token>, value: string, end: int)
    requires ts == [Token(Word, value, 0, end), LexerFacts.EndToken(end)]
    ensures AsClause(ts, Term(0, end, false, "", value, false))
  {
    hide ParseUnary;
    FieldClauses.ValueParses(ts, 0, "");
  }

  const OPEN: string := "a\\"
  const OPEN_WORD: Node := Term(0, 2, false, "", "a\\", false)
  const ONLY_B: Selection := Selection(SelectInclude, ["b"])

  lemma OpenParses()
    ensures Parse(OPEN) == Success(Some(OPEN_WORD)) && Dangling(OPEN)
  {
    hide Lex, Dangling, Parse, IsBlank;
    OpenWordReads(0);
    BlankMeansAllSpace(OPEN);
    assert !IsSpace(OPEN[0]);
    OneWordParses(OPEN, OPEN);
  }

  lemma OpenKept()
    ensures KeptClauses([OPEN_WORD], ["service", "job"]) == [OPEN_WORD] && Conjuncts(Some(OPEN_WORD)) == [OPEN_WORD]
  {
    hide NormalizeField;
    assert FieldUse(OPEN_WORD, ["service", "job"]) == FieldUnused by { NoField(); }
    assert [OPEN_WORD][1..] == [];
  }

  lemma OpenJoined()
    ensures JoinedClauses(OPEN, [OPEN_WORD], "service:b") == "a\\ service:b"
  {
    assert OPEN[0..2] == OPEN;
    assert PartsOf(OPEN, [OPEN_WORD], true) + Extra("service:b") == [OPEN, "service:b"];
    assert [OPEN, "service:b"][1..] == ["service:b"];
    assert Join([OPEN, "service:b"], " ") == "a\\ service:b";
  }

  lemma OpenSwallows()
    ensures AllInText(OPEN, [OPEN_WORD]) && Swallows(OPEN, [OPEN_WORD], "service:b")
  {
    hide Lex, Dangling;
    OpenWordReads(0);
    assert Slice(OPEN, OPEN_WORD) == OPEN;
  }

  /** `a\` with a service selected: the blank before the new clause is escaped,
      and no reading of the result has the clause. */
  lemma UnpairedBackslashSwallows() returns (x: Node)
    ensures Parse(OPEN) == Success(Some(OPEN_WORD))
    ensures WithSelection(OPEN, "service", ONLY_B) == Success("a\\ service:b")
    ensures Erase(x) == SelectionTree("service", ONLY_B) && !Reproduces(OPEN, [OPEN_WORD], "service:b", x)
  {
    hide Lex, Dangling, Parse, IsBlank, Reproduces, ClauseText, WithSelection, SelectionClause, KeptClauses,
         JoinedClauses, CutFrom, Conjuncts;
    OpenParses();
    OpenKept();
    KeptCutFrom(OPEN, Some(OPEN_WORD), ["service", "job"]);
    BareB();
    OpenJoined();
    OpenSwallows();
    x := SetSelectionTheorem(OPEN, Some(OPEN_WORD), "service", ONLY_B);
  }

  lemma NoField()
    ensures NormalizeField("") == ""
  {
  }

  lemma BareLetter(v: string)
    requires v == "b"
    ensures !NeedsQuotes(v)
  {
    assert |v| == 1 && v[0] == 'b';
    assert !ContainsAny(v, SPECIAL) by {
      forall c | c in v ensures c !in SPECIAL { assert c == v[0]; }
    }
    assert "-"[0] == '-' && "["[0] == '[' && ">"[0] == '>' && "<"[0] == '<';
    assert |"AND"| == 3 && |"OR"| == 2 && |"NOT"| == 3;
  }

  lemma BareB()
    ensures SelectionClause("service", Selection(SelectInclude, ["b"])) == Success("service:b")
  {
    hide NeedsQuotes;
    BareLetter("b");
    assert QuoteValue("b") == "b";
    assert ["b"][1..] == [];
    assert FieldClauses.Quoted(["b"]) == ["b"];
    assert FieldClauses.FieldClause("service", ["b"]) == "service" + ":" + "b" == "service:b";
  }

  // ----- a clause that the blank test takes for nothing

  const TAB: string := "\U{b}"
  const TAB_WORD: Node := Term(0, 1, false, "", "\U{b}", false)
  const TAB_AND_B: string := "\U{b} service:b"
  const EVERYTHING: Selection := Selection(SelectAll, [])

  lemma TabReads()
    ensures ClauseText(TAB, 0, TAB_WORD) && !Dangling(TAB)
  {
    var t := TAB;
    assert t[1..] == "";
    ReadWordStep(t);
    assert t[0] == '\U{b}' && [t[0]] + "" == t;
    assert ReadWord(t) == Lexeme(Word, t, 1, false);
    assert |t| == 1 && |"AND"| == 3 && |"OR"| == 2 && |"NOT"| == 3;
    assert LexOne(t) == Some(Lexeme(Word, t, 1, false));
    LexLast(t, 0, Lexeme(Word, t, 1, false));
    WordAlone(Lex(t, 0).value, t, 1);
  }

  lemma TabParses(x: Node) returns (root: Node)
    requires ClauseText("service:b", 0, x) && Closed(x)
    ensures Parse(TAB_AND_B) == Success(Some(root)) && Conjuncts(Some(root)) == [TAB_WORD, Shift(x, 2)]
  {
    hide Lex, Dangling, Parse, IsBlank, ClauseText, QueryText;
    TabReads();
    var parts, cs := [TAB, "service:b"], [TAB_WORD, x];
    root := JoinReads(parts, cs, 0);
    assert parts[1..] == ["service:b"] && cs[1..] == [x] && cs[1..][1..] == [];
    assert Join(parts, " ") == TAB_AND_B;
    BlankMeansAllSpace(TAB_AND_B);
    assert !IsSpace(TAB_AND_B[2]);
    QueryTextParses(TAB_AND_B, root);
    assert Shift(TAB_WORD, 0) == TAB_WORD;
    assert Places(parts[1..], cs[1..], 2) == [Shift(x, 2)];
  }

  lemma TabUnused()
    ensures FieldUse(TAB_WORD, ["service", "job"]) == FieldUnused
  {
    hide NormalizeField;
    NoField();
  }

  lemma TabKept(x: Node, root: Node)
    requires Conjuncts(Some(root)) == [TAB_WORD, Shift(x, 2)]
    requires Erase(x) == SelectionTree("service", ONLY_B)
    ensures KeptClauses(Conjuncts(Some(root)), ["service", "job"]) == [TAB_WORD]
  {
    hide FieldUse, SelectionTree, Conjuncts, Erase;
    var aliases := ["service", "job"];
    EraseShift(x, 2);
    SelectionOnField("service", ONLY_B);
    ErasedKept([Shift(x, 2)], aliases);
    assert EraseAll([Shift(x, 2)]) == [SelectionTree("service", ONLY_B)];
    TabUnused();
    assert [TAB_WORD, Shift(x, 2)][1..] == [Shift(x, 2)];
  }

  /** A vertical tab and a service clause: taking the service clause out leaves
      a query that the blank test reads as empty, although the tab was a term. */
  lemma TabVanishes() returns (root: Node)
    ensures Parse(TAB_AND_B) == Success(Some(root))
    ensures WithSelection(TAB_AND_B, "service", EVERYTHING) == Success(TAB)
    ensures |Conjuncts(Some(root))| == 2 && Conjuncts(Some(root))[0] == TAB_WORD && Parse(TAB) == Success(None)
  {
    hide Lex, Dangling, Parse, IsBlank, Reproduces, ClauseText, WithSelection, KeptClauses, CutFrom, Conjuncts, SelectionTree;
    BareB();
    var x := SelectionClauseReads("service", ONLY_B);
    root := TabParses(x);
    TabKept(x, root);
    var _ := SetSelectionTheorem(TAB_AND_B, Some(root), "service", EVERYTHING);
    assert TAB_AND_B[0..1] == TAB;
    BlankMeansAllSpace(TAB);
    ParseStep(TAB);
  }
}
