/** Parts of sequences. */
module Sequences {

  ghost predicate NoRepeats<T>(s: seq<T>) {
    forall i, j :: 0 <= i < j < |s| ==> s[i] != s[j]
  }

  /** The first elements, as many as there are up to n. */
  function Take<T>(s: seq<T>, n: nat): seq<T> {
    if |s| <= n then s else s[..n]
  }

  /** The elements that are not crossed out; those past the mask's end are not. */
  function Kept<T>(s: seq<T>, mask: seq<bool>): (r: seq<T>)
    ensures |r| <= |s|
  {
    if s == [] || mask == [] then s else (if mask[0] then [s[0]] else []) + Kept(s[1..], mask[1..])
  }

  lemma KeptHead<T>(s: seq<T>, mask: seq<bool>)
    requires s != []
    ensures var rest := if mask == [] then [] else mask[1..];
            Kept(s, mask) == if mask == [] || mask[0] then [s[0]] + Kept(s[1..], rest) else Kept(s[1..], rest)
  {
    assert mask == [] ==> Kept(s[1..], []) == s[1..] && [s[0]] + s[1..] == s;
  }

  /** The elements that have a property. */
  function Only<T>(s: seq<T>, p: T -> bool): seq<T> {
    if s == [] then [] else (if p(s[0]) then [s[0]] else []) + Only(s[1..], p)
  }

  lemma {:induction false} OnlyMembers<T>(s: seq<T>, p: T -> bool)
    ensures forall x :: x in Only(s, p) <==> x in s && p(x)
  {
    if s != [] {
      OnlyMembers(s[1..], p);
    }
  }

  lemma {:induction false} OnlyMember<T>(s: seq<T>, p: T -> bool, i: nat)
    requires i < |Only(s, p)|
    ensures Only(s, p)[i] in s && p(Only(s, p)[i])
  {
    if !p(s[0]) {
      OnlyMember(s[1..], p, i);
    } else if 0 < i {
      OnlyMember(s[1..], p, i - 1);
    }
  }

  lemma {:induction false} OnlyAppend<T>(a: seq<T>, b: seq<T>, p: T -> bool)
    ensures Only(a + b, p) == Only(a, p) + Only(b, p)
  {
    hide Only;
    if a == [] {
      OnlyEmpty(p);
      assert a + b == b;
    } else {
      OnlyAppend(a[1..], b, p);
      OnlyCons(a[0], a[1..], p);
      OnlyCons(a[0], a[1..] + b, p);
      assert a == [a[0]] + a[1..];
      assert a + b == [a[0]] + (a[1..] + b);
    }
  }

  lemma OnlyEmpty<T>(p: T -> bool)
    ensures Only([], p) == []
  {
  }

  lemma OnlyCons<T>(x: T, s: seq<T>, p: T -> bool)
    ensures Only([x] + s, p) == (if p(x) then [x] else []) + Only(s, p)
  {
    assert ([x] + s)[1..] == s;
  }

  lemma OnlyOne<T>(x: T, p: T -> bool)
    ensures Only([x], p) == if p(x) then [x] else []
  {
    assert [x][1..] == [];
  }
}
