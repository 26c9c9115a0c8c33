/** Setting one selection after another on the same field. */
module Reselection {
  import opened Wrappers
  import opened Text
  import opened Lexer
  import opened Syntax
  import opened Locality
  import opened Clauses
  import opened FieldClauses
  import opened Rewrite
  import opened RewriteText
  import opened SelectionText
  import opened Semantics
  import opened SelectionMeaning

  /** Setting a selection leaves the same clauses to keep. */
  lemma KeptAfterSelection(root: Option<Node>, field: string, sel: Selection, next: Option<Node>)
    requires Aliases(field).Some?
    requires EraseAll(Conjuncts(next)) == EraseAll(KeptClauses(Conjuncts(root), Aliases(field).value)) +
                                          if HasClause(sel) then [SelectionTree(field, sel)] else []
    ensures EraseAll(KeptClauses(Conjuncts(next), Aliases(field).value)) ==
            EraseAll(KeptClauses(Conjuncts(root), Aliases(field).value))
  {
    hide Conjuncts, Erase, FieldUse, SelectionTree, HasClause;
    var aliases := Aliases(field).value;
    var kept := KeptClauses(Conjuncts(root), aliases);
    ErasedKept(Conjuncts(next), aliases);
    ErasedKept(kept, aliases);
    KeptTwice(Conjuncts(root), aliases);
    if HasClause(sel) {
      SelectionOnField(field, sel);
      var tree := [SelectionTree(field, sel)];
      KeptAppend(EraseAll(kept), tree, aliases);
      assert KeptClauses(tree, aliases) == [] by { assert tree[1..] == []; }
    } else {
      assert EraseAll(kept) + [] == EraseAll(kept);
    }
  }

  // ----- the text after the first selection

  /** Each clause of joined parts is its part's text. */
  lemma {:induction false} PlacesSlice(parts: seq<string>, cs: seq<Node>, head: string, i: nat)
    requires |parts| == |cs| && i < |parts|
    requires cs[i].pos == 0 && cs[i].end == |parts[i]|
    ensures var c, text := Places(parts, cs, |head|)[i], head + Join(parts, " ");
            InText(text, c) && Slice(text, c) == parts[i]
    decreases |parts|
  {
    var text := head + Join(parts, " ");
    if |parts| == 1 {
      assert text[|head|..|head| + |parts[0]|] == parts[0];
    } else if i == 0 {
      assert text == head + parts[0] + (" " + Join(parts[1..], " "));
    } else {
      assert text == head + parts[0] + " " + Join(parts[1..], " ");
      PlacesSlice(parts[1..], cs[1..], head + parts[0] + " ", i - 1);
    }
  }

  lemma {:induction false} KeptPrefix(cs: seq<Node>, m: nat, aliases: seq<string>)
    requires m <= |cs|
    requires forall i :: 0 <= i < m ==> FieldUse(cs[i], aliases) != FieldOnly
    requires forall i :: m <= i < |cs| ==> FieldUse(cs[i], aliases) == FieldOnly
    ensures KeptClauses(cs, aliases) == cs[..m]
  {
    hide FieldUse;
    if cs != [] {
      KeptPrefix(cs[1..], if m == 0 then 0 else m - 1, aliases);
      if m > 0 {
        assert cs[..m] == [cs[0]] + cs[1..][..m - 1];
      } else {
        assert cs[..0] == [];
      }
    }
  }

  lemma SameUse(a: Node, b: Node, aliases: seq<string>)
    requires Erase(a) == Erase(b)
    ensures FieldUse(a, aliases) == FieldUse(b, aliases)
  {
    hide OnField, OffField, Erase;
    ErasedField(a, aliases);
    ErasedField(b, aliases);
  }

  /** The text of a kept clause in the rewritten query. */
  lemma IntendedSlice(query: string, kept: seq<Node>, extra: string, x: Node, i: nat)
    requires AllInText(query, kept) && i < |kept|
    ensures var out, many := JoinedClauses(query, kept, extra), |kept| + |Extra(extra)| > 1;
            var c := IntendedClauses(query, kept, extra, x)[i];
            InText(out, c) && Slice(out, c) == PartOf(query, kept[i], many)
  {
    hide Places, Join;
    var many := |kept| + |Extra(extra)| > 1;
    var parts, nodes := PartsOf(query, kept, many) + Extra(extra), PartNodes(kept, many) + ExtraNode(extra, x);
    assert "" + Join(parts, " ") == Join(parts, " ");
    PartSpan(query, kept[i], many);
    PlacesSlice(parts, nodes, "", i);
  }

  lemma PartSpan(query: string, c: Node, many: bool)
    requires InText(query, c)
    ensures PartNode(c, many).pos == 0 && PartNode(c, many).end == |PartOf(query, c, many)|
  {
  }

  /** The clauses to keep of the rewritten query are those kept the first time. */
  lemma IntendedKept(query: string, kept: seq<Node>, extra: string, x: Node, aliases: seq<string>)
    requires AllInText(query, kept)
    requires forall c :: c in kept ==> FieldUse(c, aliases) != FieldOnly
    requires extra != "" ==> FieldUse(x, aliases) == FieldOnly
    ensures KeptClauses(IntendedClauses(query, kept, extra, x), aliases) == IntendedClauses(query, kept, extra, x)[..|kept|]
  {
    hide FieldUse, Erase, IntendedClauses;
    var cs := IntendedClauses(query, kept, extra, x);
    IntendedErased(query, kept, extra, x);
    var erased := EraseAll(kept) + EraseAll(ExtraNode(extra, x));
    assert |cs| == |kept| + |ExtraNode(extra, x)| by { assert |EraseAll(cs)| == |cs|; }
    forall i | 0 <= i < |cs|
      ensures FieldUse(cs[i], aliases) == FieldUse(if i < |kept| then kept[i] else x, aliases)
    {
      assert EraseAll(cs)[i] == erased[i];
      SameUse(cs[i], if i < |kept| then kept[i] else x, aliases);
    }
    KeptPrefix(cs, |kept|, aliases);
  }

  /** A part is no more open at its end, and no more blank, than its clause. */
  lemma PartAsClosed(query: string, root: Option<Node>, kept: seq<Node>, i: nat, many: bool)
    requires CutFrom(query, root, kept) && i < |kept|
    ensures !Dangling(Slice(query, kept[i])) ==> !Dangling(PartOf(query, kept[i], many))
    ensures !IsBlank(Slice(query, kept[i])) ==> !IsBlank(PartOf(query, kept[i], many))
  {
    hide Parse, Lex, Dangling, IsBlank, ClauseText;
    var c := kept[i];
    assert c in kept && root.Some?;
    var s := Slice(query, c);
    SliceReads(query, root.value, c);
    if many && Loose(c) {
      if !Dangling(s) {
        QueryMoves(s, c.pos, c, 1 - c.pos);
        ParensNotDangling(s, 0);
      }
      if !IsBlank(s) {
        PartNotBlank("(", s, ")");
      }
    }
  }

  /** Setting a second selection does what it is for on the rewritten text, if it
      does so on the query itself. */
  lemma SecondHolds(query: string, root: Option<Node>, field: string, first: Selection, second: Selection,
                    between: Option<Node>)
    requires Aliases(field).Some? && !first.mode.SelectCustom? && !second.mode.SelectCustom?
    requires Parse(query) == Success(root)
    requires SelectionHolds(query, root, field, first) && SelectionHolds(query, root, field, second)
    requires WithSelection(query, field, first).Success?
    requires Parse(WithSelection(query, field, first).value) == Success(between)
    ensures SelectionHolds(WithSelection(query, field, first).value, between, field, second)
  {
    hide Parse, FieldUse, KeptClauses, JoinedClauses, Reproduces, CutFrom, Dangling, IsBlank, Conjuncts,
         IntendedClauses, Erase, SelectionTree, HasClause, Slice, PartOf;
    var aliases := Aliases(field).value;
    var kept, clause := KeptClauses(Conjuncts(root), aliases), SelectionClause(field, first).value;
    var x := SetSelectionTheorem(query, root, field, first);
    var out := WithSelection(query, field, first).value;
    KeptAreClauses(Conjuncts(root), aliases);
    if HasClause(first) {
      SelectionOnField(field, first);
      TreeErased(field, first);
      SameUse(x, SelectionTree(field, first), aliases);
    }
    IntendedKept(query, kept, clause, x, aliases);
    KeptCutFrom(out, between, aliases);
    var next := SelectionClause(field, second).value;
    StillHolds(query, root, kept, clause, x, next);
    IntendedIsConjuncts(query, kept, clause, x, between);
  }

  lemma IntendedIsConjuncts(query: string, kept: seq<Node>, extra: string, x: Node, next: Option<Node>)
    requires AllInText(query, kept) && Reproduces(query, kept, extra, x)
    requires Parse(JoinedClauses(query, kept, extra)) == Success(next)
    ensures Conjuncts(next) == IntendedClauses(query, kept, extra, x)
  {
    hide Parse, IntendedClauses, JoinedClauses;
  }

  /** What does not swallow or vanish in a query does not in its rewritten text. */
  lemma StillHolds(query: string, root: Option<Node>, kept: seq<Node>, extra: string, x: Node, next: string)
    requires CutFrom(query, root, kept)
    requires !Swallows(query, kept, next) && !Vanishes(query, kept, next)
    ensures var out, again := JoinedClauses(query, kept, extra), IntendedClauses(query, kept, extra, x)[..|kept|];
            AllInText(out, again) && !Swallows(out, again, next) && !Vanishes(out, again, next)
  {
    hide CutFrom, Dangling, IsBlank, Slice, PartOf, JoinedClauses, IntendedClauses;
    var out, many := JoinedClauses(query, kept, extra), |kept| + |Extra(extra)| > 1;
    var again := IntendedClauses(query, kept, extra, x)[..|kept|];
    forall i | 0 <= i < |kept|
      ensures InText(out, again[i]) && Slice(out, again[i]) == PartOf(query, kept[i], many)
      ensures !Dangling(Slice(query, kept[i])) ==> !Dangling(Slice(out, again[i]))
      ensures !IsBlank(Slice(query, kept[i])) ==> !IsBlank(Slice(out, again[i]))
    {
      IntendedSlice(query, kept, extra, x, i);
      PartAsClosed(query, root, kept, i, many);
    }
    if next == "" && kept != [] {
      var c :| c in kept && !IsBlank(Slice(query, c));
      var i :| 0 <= i < |kept| && kept[i] == c;
      assert again[i] in again;
    }
  }

  /** Of two selections set one after the other, the later alone decides what
      the query means. */
  lemma LaterSelectionDecides(query: string, root: Option<Node>, field: string, first: Selection, second: Selection,
                              row: Row, nums: Numbers)
    requires Aliases(field).Some? && !first.mode.SelectCustom? && !second.mode.SelectCustom?
    requires Parse(query) == Success(root)
    requires SelectionHolds(query, root, field, first) && SelectionHolds(query, root, field, second)
    ensures WithSelection(query, field, first).Success?
    ensures var once := WithSelection(query, field, second);
            var twice := WithSelection(WithSelection(query, field, first).value, field, second);
            && once.Success? && twice.Success?
            && Parse(once.value).Success? && Parse(twice.value).Success?
            && RootMeaning(Parse(once.value).value, row, nums) == RootMeaning(Parse(twice.value).value, row, nums)
  {
    hide Parse, Conjuncts, KeptClauses, Erase, Meaning, SelectionHolds, WithSelection, SelectionTree, KAll, RootMeaning,
         FieldUse, HasClause;
    var aliases := Aliases(field).value;
    var between := SelectedClauses(query, root, field, first);
    SecondHolds(query, root, field, first, second, between);
    SetSelectionPreservesMeaning(query, root, field, second, row, nums);
    SetSelectionPreservesMeaning(WithSelection(query, field, first).value, between, field, second, row, nums);
    KeptAfterSelection(root, field, first, between);
    ErasedMeaningsAgree(KeptClauses(Conjuncts(between), aliases), KeptClauses(Conjuncts(root), aliases), row, nums);
  }
}
