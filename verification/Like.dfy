/** Text patterns: what a query value matches, and the LIKE pattern that the
    store compares with. */
module Like {
  import opened Text

  /** Equality up to ASCII case, as COLLATE NOCASE compares. */
  predicate SameText(a: string, b: string) {
    |a| == |b| && forall i :: 0 <= i < |a| ==> LowerChar(a[i]) == LowerChar(b[i])
  }

  /** Whether all of t matches v, where * stands for any run of characters and
      ? for any one character. */
  predicate Glob(v: string, t: string) {
    if v == "" then t == ""
    else if v[0] == '*' then exists k | 0 <= k <= |t| :: Glob(v[1..], t[k..])
    else t != "" && (v[0] == '?' || LowerChar(v[0]) == LowerChar(t[0])) && Glob(v[1..], t[1..])
  }

  predicate MatchesAll(v: string, quoted: bool, t: string) {
    if quoted then SameText(v, t) else Glob(v, t)
  }

  /** What a query value means against a text: quoted values are literal, others
      may hold wildcards; a contains match may start and end anywhere. */
  ghost predicate Matches(v: string, quoted: bool, contains: bool, t: string) {
    if contains then exists i, j :: 0 <= i <= j <= |t| && MatchesAll(v, quoted, t[i..j])
    else MatchesAll(v, quoted, t)
  }

  /** SQL's LIKE with escape character backslash. */
  predicate SqlLike(p: string, t: string)
    decreases |p|, |t|
  {
    if p == "" then t == ""
    else if p[0] == '%' then SqlLike(p[1..], t) || (t != "" && SqlLike(p, t[1..]))
    else if p[0] == '\\' then
      |p| > 1 && t != "" && LowerChar(p[1]) == LowerChar(t[0]) && SqlLike(p[2..], t[1..])
    else t != "" && (p[0] == '_' || LowerChar(p[0]) == LowerChar(t[0])) && SqlLike(p[1..], t[1..])
  }

  function PatternChar(c: char, quoted: bool): string {
    if c == '*' then (if quoted then "\\*" else "%")
    else if c == '?' then (if quoted then "\\?" else "_")
    else if c == '%' || c == '_' || c == '\\' then ['\\', c]
    else [c]
  }

  function PatternBody(v: string, quoted: bool): string {
    if v == "" then "" else PatternChar(v[0], quoted) + PatternBody(v[1..], quoted)
  }

  function LikePattern(v: string, quoted: bool, contains: bool): string {
    if contains then "%" + PatternBody(v, quoted) + "%" else PatternBody(v, quoted)
  }

  lemma {:induction false} BodySnoc(v: string, c: char, quoted: bool)
    ensures PatternBody(v + [c], quoted) == PatternBody(v, quoted) + PatternChar(c, quoted)
  {
    if v == "" {
      assert v + [c] == [c] && [c][1..] == "";
    } else {
      assert (v + [c])[1..] == v[1..] + [c];
      BodySnoc(v[1..], c, quoted);
    }
  }

  method BuildLikePattern(value: string, quoted: bool, contains: bool) returns (pattern: string)
    ensures pattern == LikePattern(value, quoted, contains)
  {
    var b := "";
    for i := 0 to |value|
      invariant b == PatternBody(value[..i], quoted)
    {
      ghost var before := b;
      match value[i] {
        case '*' => b := b + if quoted then "\\*" else "%";
        case '?' => b := b + if quoted then "\\?" else "_";
        case '%' => b := b + "\\%";
        case '_' => b := b + "\\_";
        case '\\' => b := b + "\\\\";
        case c => b := b + [c];
      }
      assert b == before + PatternChar(value[i], quoted);
      BodySnoc(value[..i], value[i], quoted);
      assert value[..i] + [value[i]] == value[..i + 1];
    }
    assert value[..|value|] == value;
    return if contains then "%" + b + "%" else b;
  }

  // ----- the pattern means what the value means

  lemma {:induction false} PercentSkips(p: string, t: string)
    requires p != "" && p[0] == '%'
    ensures SqlLike(p, t) <==> exists k :: 0 <= k <= |t| && SqlLike(p[1..], t[k..])
    decreases |t|
  {
    if SqlLike(p[1..], t) {
      assert t[0..] == t;
    } else if t != "" {
      PercentSkips(p, t[1..]);
      if SqlLike(p, t[1..]) {
        var k :| 0 <= k <= |t[1..]| && SqlLike(p[1..], t[1..][k..]);
        assert t[1..][k..] == t[k + 1..];
      } else {
        forall k | 0 <= k <= |t|
          ensures !SqlLike(p[1..], t[k..])
        {
          if k == 0 {
            assert t[0..] == t;
          } else {
            assert t[1..][k - 1..] == t[k..];
          }
        }
      }
    } else {
      assert forall k :: 0 <= k <= |t| ==> t[k..] == t;
    }
  }

  /** Some first part of t matches v and the remaining text matches p. */
  ghost predicate Splits(v: string, quoted: bool, p: string, t: string) {
    exists j :: 0 <= j <= |t| && MatchesAll(v, quoted, t[..j]) && SqlLike(p, t[j..])
  }

  lemma SplitsNothing(quoted: bool, p: string, t: string)
    ensures Splits("", quoted, p, t) <==> SqlLike(p, t)
  {
    assert t[0..] == t && t[..0] == "";
    assert forall j :: 0 < j <= |t| ==> t[..j] != "" && !MatchesAll("", quoted, t[..j]);
  }

  /** v begins with a character that stands for one character. */
  lemma SplitsOne(v: string, quoted: bool, p: string, t: string)
    requires v != "" && (quoted || v[0] != '*')
    ensures Splits(v, quoted, p, t) <==>
            t != "" && ((!quoted && v[0] == '?') || LowerChar(v[0]) == LowerChar(t[0]))
            && Splits(v[1..], quoted, p, t[1..])
  {
    hide SqlLike;
    if Splits(v, quoted, p, t) {
      var j :| 0 <= j <= |t| && MatchesAll(v, quoted, t[..j]) && SqlLike(p, t[j..]);
      assert t[..j][1..] == t[1..][..j - 1] && t[1..][j - 1..] == t[j..];
      OneMatches(v, quoted, t[..j]);
    }
    if t != "" && Splits(v[1..], quoted, p, t[1..]) {
      var j :| 0 <= j <= |t[1..]| && MatchesAll(v[1..], quoted, t[1..][..j]) && SqlLike(p, t[1..][j..]);
      assert t[..j + 1][1..] == t[1..][..j] && t[1..][j..] == t[j + 1..];
      OneMatches(v, quoted, t[..j + 1]);
    }
  }

  lemma OneMatches(v: string, quoted: bool, t: string)
    requires v != "" && (quoted || v[0] != '*')
    ensures MatchesAll(v, quoted, t) <==>
            t != "" && ((!quoted && v[0] == '?') || LowerChar(v[0]) == LowerChar(t[0]))
            && MatchesAll(v[1..], quoted, t[1..])
  {
    if quoted && t != "" && |v| == |t| && SameText(v[1..], t[1..]) && LowerChar(v[0]) == LowerChar(t[0]) {
      forall i | 0 <= i < |v|
        ensures LowerChar(v[i]) == LowerChar(t[i])
      {
        if i > 0 {
          assert v[1..][i - 1] == v[i] && t[1..][i - 1] == t[i];
        }
      }
    }
  }

  /** v begins with a star. */
  lemma SplitsStar(v: string, p: string, t: string)
    requires v != "" && v[0] == '*'
    ensures Splits(v, false, p, t) <==> exists k :: 0 <= k <= |t| && Splits(v[1..], false, p, t[k..])
  {
    hide SqlLike;
    if Splits(v, false, p, t) {
      var j :| 0 <= j <= |t| && MatchesAll(v, false, t[..j]) && SqlLike(p, t[j..]);
      var k :| 0 <= k <= j && Glob(v[1..], t[..j][k..]);
      assert t[k..][..j - k] == t[..j][k..] && t[k..][j - k..] == t[j..];
      assert Splits(v[1..], false, p, t[k..]);
    }
    if k :| 0 <= k <= |t| && Splits(v[1..], false, p, t[k..]) {
      var j :| 0 <= j <= |t[k..]| && MatchesAll(v[1..], false, t[k..][..j]) && SqlLike(p, t[k..][j..]);
      assert t[..k + j][k..] == t[k..][..j] && t[k..][j..] == t[k + j..];
    }
  }

  /** A pattern body matches exactly where the value does, whatever follows. */
  lemma {:induction false} BodyMatches(v: string, quoted: bool, p: string, t: string)
    ensures SqlLike(PatternBody(v, quoted) + p, t) <==> Splits(v, quoted, p, t)
    decreases |v|, 1
  {
    hide Splits;
    if v == "" {
      assert "" + p == p;
      SplitsNothing(quoted, p, t);
    } else {
      var head, rest := PatternChar(v[0], quoted), PatternBody(v[1..], quoted) + p;
      assert PatternBody(v, quoted) + p == head + rest;
      if v[0] == '*' && !quoted {
        StarMatches(v, p, t);
      } else {
        HeadMatches(v[0], quoted, rest, t);
        SplitsOne(v, quoted, p, t);
        if t != "" {
          BodyMatches(v[1..], quoted, p, t[1..]);
        }
      }
    }
  }

  lemma HeadMatches(c: char, quoted: bool, rest: string, t: string)
    requires quoted || c != '*'
    ensures SqlLike(PatternChar(c, quoted) + rest, t) <==>
            t != "" && ((!quoted && c == '?') || LowerChar(c) == LowerChar(t[0])) && SqlLike(rest, t[1..])
  {
    var p := PatternChar(c, quoted) + rest;
    if |PatternChar(c, quoted)| == 2 {
      assert p[2..] == rest;
    } else {
      assert p[1..] == rest;
    }
  }

  lemma {:induction false} StarMatches(v: string, p: string, t: string)
    requires v != "" && v[0] == '*'
    ensures SqlLike(PatternBody(v, false) + p, t) <==> Splits(v, false, p, t)
    decreases |v|, 0
  {
    hide Splits, SqlLike;
    var rest := PatternBody(v[1..], false) + p;
    var all := PatternBody(v, false) + p;
    assert all == "%" + rest && all[1..] == rest;
    PercentSkips(all, t);
    SplitsStar(v, p, t);
    forall k | 0 <= k <= |t|
      ensures SqlLike(rest, t[k..]) <==> Splits(v[1..], false, p, t[k..])
    {
      BodyMatches(v[1..], false, p, t[k..]);
    }
  }

  lemma {:induction false} PercentMatchesAll(t: string)
    ensures SqlLike("%", t)
    decreases |t|
  {
    assert "%"[1..] == "";
    if t != "" {
      PercentMatchesAll(t[1..]);
    }
  }

  /** The LIKE pattern of a value matches a text exactly when the value does. */
  lemma LikePatternCorrect(v: string, quoted: bool, contains: bool, t: string)
    ensures SqlLike(LikePattern(v, quoted, contains), t) <==> Matches(v, quoted, contains, t)
  {
    hide SqlLike, MatchesAll;
    var body := PatternBody(v, quoted);
    if contains {
      var p := "%" + body + "%";
      assert p[1..] == body + "%";
      PercentSkips(p, t);
      forall i | 0 <= i <= |t|
        ensures SqlLike(body + "%", t[i..]) <==> exists j :: i <= j <= |t| && MatchesAll(v, quoted, t[i..j])
      {
        BodyMatches(v, quoted, "%", t[i..]);
        EndsAnywhere(v, quoted, t, i);
      }
      if SqlLike(p, t) {
        var i :| 0 <= i <= |t| && SqlLike(body + "%", t[i..]);
        assert Matches(v, quoted, true, t);
      }
      if i, j :| 0 <= i <= j <= |t| && MatchesAll(v, quoted, t[i..j]) {
        assert SqlLike(p[1..], t[i..]);
      }
    } else {
      assert body + "" == body;
      BodyMatches(v, quoted, "", t);
      EndsAtEnd(v, quoted, t);
    }
  }

  lemma EndsAnywhere(v: string, quoted: bool, t: string, i: nat)
    requires i <= |t|
    ensures Splits(v, quoted, "%", t[i..]) <==> exists j :: i <= j <= |t| && MatchesAll(v, quoted, t[i..j])
  {
    hide SqlLike, MatchesAll;
    var u := t[i..];
    if Splits(v, quoted, "%", u) {
      var j :| 0 <= j <= |u| && MatchesAll(v, quoted, u[..j]) && SqlLike("%", u[j..]);
      assert t[i..i + j] == u[..j];
    }
    if j :| i <= j <= |t| && MatchesAll(v, quoted, t[i..j]) {
      assert u[..j - i] == t[i..j];
      PercentMatchesAll(u[j - i..]);
    }
  }

  lemma EndsAtEnd(v: string, quoted: bool, t: string)
    ensures Splits(v, quoted, "", t) <==> MatchesAll(v, quoted, t)
  {
    hide MatchesAll;
    assert t[..|t|] == t;
    assert t[|t|..] == "";
    forall j | 0 <= j < |t|
      ensures !SqlLike("", t[j..])
    {
      assert t[j..] != "";
    }
  }
}
