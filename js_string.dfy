/**
 * The JavaScript string operations the header policy is written with, as
 * ECMAScript defines them: `startsWith`, `includes`, `Array.prototype.join`,
 * the white space class `\s` of regular expressions, `replace(/\s+/g, ' ')`
 * and `trim`. Strings are sequences of code points.
 */
module JsString {

  /** `s.startsWith(prefix)`. */
  predicate StartsWith(s: string, prefix: string)
  {
    |prefix| <= |s| && s[..|prefix|] == prefix
  }

  /** `sub` occurs in `s` starting at index `i`. */
  predicate OccursAt(s: string, sub: string, i: int)
  {
    0 <= i && i + |sub| <= |s| && s[i..i + |sub|] == sub
  }

  /** The characters of `sub` from index `j` on equal those of `s` from index `i + j` on. */
  function MatchesFrom(s: string, sub: string, i: nat, j: nat): (b: bool)
    requires i + |sub| <= |s| && j <= |sub|
    ensures b <==> forall k :: j <= k < |sub| ==> s[i + k] == sub[k]
    decreases |sub| - j
  {
    j == |sub| || (s[i + j] == sub[j] && MatchesFrom(s, sub, i, j + 1))
  }

  /** Character-by-character agreement is an occurrence. */
  lemma MatchingCharactersOccur(s: string, sub: string, i: nat)
    requires i + |sub| <= |s| && MatchesFrom(s, sub, i, 0)
    ensures OccursAt(s, sub, i)
  {
    assert s[i..i + |sub|] == sub;
  }

  /** The search behind `s.includes(sub)`: an occurrence of `sub` at index `i` or later. */
  function IncludesFrom(s: string, sub: string, i: nat): (b: bool)
    ensures b <==> exists j :: i <= j && OccursAt(s, sub, j)
    decreases |s| - i
  {
    if i + |sub| > |s| then false
    else if MatchesFrom(s, sub, i, 0) then
      MatchingCharactersOccur(s, sub, i);
      true
    else
      assert !OccursAt(s, sub, i) by {
        var k :| 0 <= k < |sub| && s[i + k] != sub[k];
        assert s[i..i + |sub|][k] == s[i + k];
      }
      IncludesFrom(s, sub, i + 1)
  }

  /** `s.includes(sub)`: `sub` occurs somewhere in `s`. */
  function Includes(s: string, sub: string): (b: bool)
    ensures b <==> exists i :: OccursAt(s, sub, i)
  {
    IncludesFrom(s, sub, 0)
  }

  /**
   * `s` cannot include `sub` when the first character of `sub` does not
   * appear in the part of `s` where an occurrence could start.
   */
  lemma FirstCharacterAbsent(s: string, sub: string, k: nat)
    requires |sub| > 0 && k <= |s| && |s| - k < |sub|
    requires sub[0] !in s[..k]
    ensures !Includes(s, sub)
  {
    forall i | 0 <= i && i + |sub| <= |s|
      ensures !OccursAt(s, sub, i)
    {
      assert s[..k][i] == s[i] == s[i..i + |sub|][0];
    }
  }

  /** `xs.join(sep)`: the elements with `sep` between neighbours. */
  function Join(xs: seq<string>, sep: string): string
  {
    if |xs| == 0 then ""
    else if |xs| == 1 then xs[0]
    else xs[0] + sep + Join(xs[1..], sep)
  }

  /**
   * Putting a space between `a` and `b` cannot create an occurrence of a
   * non-empty `sub` without spaces that neither of them includes.
   */
  lemma SpaceSeparatedAvoids(a: string, b: string, sub: string)
    requires |sub| > 0 && ' ' !in sub
    requires !Includes(a, sub) && !Includes(b, sub)
    ensures !Includes(a + " " + b, sub)
  {
    forall i | 0 <= i && i + |sub| <= |a| + 1 + |b|
      ensures !OccursAt(a + " " + b, sub, i)
    {
      assert !OccursAt(a, sub, i) && !OccursAt(b, sub, i - |a| - 1);
      WindowOfSpaceSeparated(a, b, sub, i);
    }
  }

  /** A window of `a + " " + b` lies in `a`, lies in `b`, or holds the separating space. */
  lemma WindowOfSpaceSeparated(a: string, b: string, sub: string, i: int)
    requires 0 <= i && i + |sub| <= |a| + 1 + |b| && ' ' !in sub
    requires !OccursAt(a, sub, i) && !OccursAt(b, sub, i - |a| - 1)
    ensures !OccursAt(a + " " + b, sub, i)
  {
    var w := (a + " " + b)[i..i + |sub|];
    if i + |sub| <= |a| {
      assert w == a[i..i + |sub|];
    } else if i > |a| {
      assert w == b[i - |a| - 1..i - |a| - 1 + |sub|];
    } else {
      assert w[|a| - i] == ' ';
    }
  }

  /**
   * Joining with single spaces cannot create an occurrence of a non-empty
   * `sub` without spaces that no element includes.
   */
  lemma {:induction false} JoinWithSpacesAvoids(xs: seq<string>, sub: string)
    requires |sub| > 0 && ' ' !in sub
    requires forall k :: 0 <= k < |xs| ==> !Includes(xs[k], sub)
    ensures !Includes(Join(xs, " "), sub)
  {
    if |xs| == 0 {
      assert forall i :: !OccursAt("", sub, i);
    } else if |xs| > 1 {
      JoinWithSpacesAvoids(xs[1..], sub);
      assert !Includes(xs[0], sub);
      SpaceSeparatedAvoids(xs[0], Join(xs[1..], " "), sub);
    }
  }

  // ---------------------------------------------------------------------
  // White space
  // ---------------------------------------------------------------------

  /**
   * The white space and line terminators matched by `\s` and removed by
   * `trim`: tab, line feed, line tabulation, form feed, carriage return,
   * space, no-break space, ogham space mark, the spaces U+2000 to U+200A,
   * line and paragraph separators, narrow no-break space, medium
   * mathematical space, ideographic space and the byte order mark.
   */
  predicate IsJsSpace(c: char)
  {
    || c == '\t' || c == '\n' || c == '\U{000B}' || c == '\U{000C}' || c == '\r' || c == ' '
    || c == '\U{00A0}' || c == '\U{1680}' || ('\U{2000}' <= c <= '\U{200A}')
    || c == '\U{2028}' || c == '\U{2029}' || c == '\U{202F}' || c == '\U{205F}'
    || c == '\U{3000}' || c == '\U{FEFF}'
  }

  /** Every character of `s` is white space. */
  predicate AllSpaces(s: string)
  {
    forall i :: 0 <= i < |s| ==> IsJsSpace(s[i])
  }

  /** Every white space character of `s` is the plain space `' '`. */
  predicate SpacesAreBlanks(s: string)
  {
    forall i :: 0 <= i < |s| && IsJsSpace(s[i]) ==> s[i] == ' '
  }

  /** No two neighbouring characters of `s` are both white space. */
  predicate NoAdjacentSpaces(s: string)
  {
    forall i :: 0 <= i < |s| - 1 ==> !(IsJsSpace(s[i]) && IsJsSpace(s[i + 1]))
  }

  /** `s` starts with white space. */
  predicate LeadingSpace(s: string)
  {
    |s| > 0 && IsJsSpace(s[0])
  }

  /** `s` ends with white space. */
  predicate TrailingSpace(s: string)
  {
    |s| > 0 && IsJsSpace(s[|s| - 1])
  }

  /**
   * The shape of a value after whitespace normalisation: no white space at
   * either end, none but plain spaces, and never two in a row.
   */
  predicate Normalised(s: string)
  {
    !LeadingSpace(s) && !TrailingSpace(s) && SpacesAreBlanks(s) && NoAdjacentSpaces(s)
  }

  /** The characters of `s` from index `i` on that are not white space, in order. */
  function NonSpaceFrom(s: string, i: nat): string
    requires i <= |s|
    decreases |s| - i
  {
    if i == |s| then ""
    else (if IsJsSpace(s[i]) then "" else [s[i]]) + NonSpaceFrom(s, i + 1)
  }

  /** The characters of `s` that are not white space, in order. */
  function NonSpace(s: string): string
  {
    NonSpaceFrom(s, 0)
  }

  lemma {:induction false} NonSpaceFromDrop(s: string, d: nat, k: nat)
    requires d + k <= |s|
    ensures NonSpaceFrom(s[d..], k) == NonSpaceFrom(s, d + k)
    decreases |s| - d - k
  {
    var t := s[d..];
    if d + k < |s| {
      var c := s[d + k];
      assert t[k] == c;
      var h := if IsJsSpace(c) then "" else [c];
      NonSpaceFromDrop(s, d, k + 1);
      assert NonSpaceFrom(t, k) == h + NonSpaceFrom(t, k + 1);
      assert NonSpaceFrom(s, d + k) == h + NonSpaceFrom(s, d + k + 1);
    } else {
      assert |t| == k;
    }
  }

  /** The search from index `i` sees exactly the suffix from `i`. */
  lemma NonSpaceOfSuffix(s: string, i: nat)
    requires i <= |s|
    ensures NonSpace(s[i..]) == NonSpaceFrom(s, i)
  {
    NonSpaceFromDrop(s, i, 0);
  }

  lemma {:induction false} NonSpaceFromConcat(a: string, b: string, i: nat)
    requires i <= |a|
    ensures NonSpaceFrom(a + b, i) == NonSpaceFrom(a, i) + NonSpace(b)
    decreases |a| - i
  {
    if i == |a| {
      NonSpaceOfSuffix(a + b, |a|);
      assert (a + b)[|a|..] == b;
    } else {
      assert (a + b)[i] == a[i];
      NonSpaceFromConcat(a, b, i + 1);
    }
  }

  lemma NonSpaceConcat(a: string, b: string)
    ensures NonSpace(a + b) == NonSpace(a) + NonSpace(b)
  {
    NonSpaceFromConcat(a, b, 0);
  }

  lemma {:induction false} NonSpaceFromSpaces(s: string, i: nat, j: nat)
    requires i <= j <= |s|
    requires forall k :: i <= k < j ==> IsJsSpace(s[k])
    ensures NonSpaceFrom(s, i) == NonSpaceFrom(s, j)
    decreases j - i
  {
    if i < j {
      NonSpaceFromSpaces(s, i + 1, j);
    }
  }

  lemma NonSpaceOfSpaces(s: string)
    requires AllSpaces(s)
    ensures NonSpace(s) == ""
  {
    NonSpaceFromSpaces(s, 0, |s|);
  }

  /** The first index at or after `i` that does not hold white space, or `|s|`. */
  function SkipSpaces(s: string, i: nat): (j: nat)
    requires i <= |s|
    ensures i <= j <= |s|
    ensures forall k :: i <= k < j ==> IsJsSpace(s[k])
    ensures j < |s| ==> !IsJsSpace(s[j])
    decreases |s| - i
  {
    if i < |s| && IsJsSpace(s[i]) then SkipSpaces(s, i + 1) else i
  }

  /** The index just past the last character before `j` that is not white space, or `0`. */
  function ContentEnd(s: string, j: nat): (k: nat)
    requires j <= |s|
    ensures k <= j
    ensures forall m :: k <= m < j ==> IsJsSpace(s[m])
    ensures k > 0 ==> !IsJsSpace(s[k - 1])
    decreases j
  {
    if j > 0 && IsJsSpace(s[j - 1]) then ContentEnd(s, j - 1) else j
  }

  /** `s.trimStart()`: `s` without its leading white space. */
  function TrimStart(s: string): (r: string)
    ensures |r| <= |s| && r == s[|s| - |r|..]
    ensures AllSpaces(s[..|s| - |r|])
    ensures !LeadingSpace(r)
  {
    var j := SkipSpaces(s, 0);
    assert forall k :: 0 <= k < j ==> s[..j][k] == s[k];
    s[j..]
  }

  /** `s.trimEnd()`: `s` without its trailing white space. */
  function TrimEnd(s: string): (r: string)
    ensures |r| <= |s| && r == s[..|r|]
    ensures AllSpaces(s[|r|..])
    ensures !TrailingSpace(r)
  {
    var k := ContentEnd(s, |s|);
    assert forall m :: 0 <= m < |s| - k ==> s[k..][m] == s[k + m];
    s[..k]
  }

  /** `s.trim()`: `s` without white space at either end. */
  function Trim(s: string): (r: string)
    ensures !LeadingSpace(r) && !TrailingSpace(r)
    ensures var a := |s| - |TrimStart(s)|;
            && a + |r| <= |s| && r == s[a..a + |r|]
            && AllSpaces(s[..a]) && AllSpaces(s[a + |r|..])
  {
    var t := TrimStart(s);
    var r := TrimEnd(t);
    TrimmedSlice(s, t, r);
    r
  }

  lemma TrimmedSlice(s: string, t: string, r: string)
    requires |t| <= |s| && t == s[|s| - |t|..]
    requires |r| <= |t| && r == t[..|r|]
    requires AllSpaces(t[|r|..]) && !LeadingSpace(t)
    ensures |r| > 0 ==> r[0] == t[0]
    ensures var a := |s| - |t|; r == s[a..a + |r|] && AllSpaces(s[a + |r|..])
  {
    var a := |s| - |t|;
    assert s[a..a + |r|] == t[..|r|];
    assert s[a + |r|..] == t[|r|..];
  }

  /**
   * The replacement of `replace(/\s+/g, ' ')` applied to `s[i..]`: every
   * maximal run of white space replaced by one plain space.
   */
  function CollapseFrom(s: string, i: nat): string
    requires i <= |s|
    decreases |s| - i
  {
    if i == |s| then ""
    else if IsJsSpace(s[i]) then " " + CollapseFrom(s, SkipSpaces(s, i + 1))
    else [s[i]] + CollapseFrom(s, i + 1)
  }

  /**
   * Collapsing leaves only plain spaces, never two in a row, starts with a
   * space exactly when `s[i..]` starts with white space, and keeps every
   * other character in order.
   */
  lemma {:induction false} CollapseFromShape(s: string, i: nat)
    requires i <= |s|
    ensures var r := CollapseFrom(s, i);
            && SpacesAreBlanks(r) && NoAdjacentSpaces(r)
            && (LeadingSpace(r) <==> i < |s| && IsJsSpace(s[i]))
            && NonSpace(r) == NonSpaceFrom(s, i)
    decreases |s| - i
  {
    if i < |s| {
      if IsJsSpace(s[i]) {
        var j := SkipSpaces(s, i + 1);
        var rest := CollapseFrom(s, j);
        CollapseFromShape(s, j);
        NonSpaceFromSpaces(s, i, j);
        NonSpaceConcat(" ", rest);
        ConsKeepsCollapsed(' ', rest);
      } else {
        var rest := CollapseFrom(s, i + 1);
        CollapseFromShape(s, i + 1);
        NonSpaceConcat([s[i]], rest);
        assert NonSpaceFrom([s[i]], 1) == "";
        ConsKeepsCollapsed(s[i], rest);
      }
    }
  }

  /** Putting a character before a collapsed string keeps it collapsed, unless it makes a run of two spaces. */
  lemma ConsKeepsCollapsed(c: char, rest: string)
    requires SpacesAreBlanks(rest) && NoAdjacentSpaces(rest)
    requires IsJsSpace(c) ==> c == ' ' && !LeadingSpace(rest)
    ensures SpacesAreBlanks([c] + rest) && NoAdjacentSpaces([c] + rest)
    ensures LeadingSpace([c] + rest) <==> IsJsSpace(c)
  {
    var r := [c] + rest;
    assert r[0] == c;
    assert forall i :: 0 < i < |r| ==> r[i] == rest[i - 1];
  }

  /** `s.replace(/\s+/g, ' ')`. */
  function CollapseSpaces(s: string): (r: string)
    ensures SpacesAreBlanks(r) && NoAdjacentSpaces(r)
    ensures LeadingSpace(r) <==> LeadingSpace(s)
    ensures NonSpace(r) == NonSpace(s)
  {
    CollapseFromShape(s, 0);
    CollapseFrom(s, 0)
  }

  /** A slice keeps the absence of neighbouring white space and non-blank white space. */
  lemma SliceKeepsShape(s: string, a: int, b: int)
    requires 0 <= a <= b <= |s|
    requires SpacesAreBlanks(s) && NoAdjacentSpaces(s)
    ensures SpacesAreBlanks(s[a..b]) && NoAdjacentSpaces(s[a..b])
  {
    var r := s[a..b];
    forall i | 0 <= i < |r| - 1
      ensures !(IsJsSpace(r[i]) && IsJsSpace(r[i + 1]))
    {
      assert r[i] == s[a + i] && r[i + 1] == s[a + i + 1];
    }
    forall i | 0 <= i < |r| && IsJsSpace(r[i])
      ensures r[i] == ' '
    {
      assert r[i] == s[a + i];
    }
  }

  /**
   * `s.replace(/\s+/g, ' ').trim()` is normalised and keeps every
   * character of `s` that is not white space, in order.
   */
  lemma CollapseThenTrimNormalises(s: string)
    ensures Normalised(Trim(CollapseSpaces(s)))
    ensures NonSpace(Trim(CollapseSpaces(s))) == NonSpace(s)
  {
    var c := CollapseSpaces(s);
    var r := Trim(c);
    var a := |c| - |TrimStart(c)|;
    var b := a + |r|;
    SliceKeepsShape(c, a, b);
    SplitThree(c, a, b);
    NonSpaceConcat(c[..a] + r, c[b..]);
    NonSpaceConcat(c[..a], r);
    NonSpaceOfSpaces(c[..a]);
    NonSpaceOfSpaces(c[b..]);
  }

  lemma SplitThree(s: string, a: int, b: int)
    requires 0 <= a <= b <= |s|
    ensures s == s[..a] + s[a..b] + s[b..]
  {
    assert s[..b] == s[..a] + s[a..b];
    assert s == s[..b] + s[b..];
  }

  /**
   * A string whose white space is already single plain spaces is left
   * unchanged by collapsing, so collapsing twice is collapsing once.
   */
  lemma {:induction false} CollapseFromKeepsCollapsed(s: string, i: nat)
    requires i <= |s|
    requires SpacesAreBlanks(s) && NoAdjacentSpaces(s)
    ensures CollapseFrom(s, i) == s[i..]
    decreases |s| - i
  {
    if i < |s| {
      CollapseFromKeepsCollapsed(s, i + 1);
      if IsJsSpace(s[i]) {
        assert i + 1 < |s| ==> !IsJsSpace(s[i + 1]);
        assert SkipSpaces(s, i + 1) == i + 1;
      }
      assert s[i..] == [s[i]] + s[i + 1..];
    }
  }

  lemma CollapseKeepsCollapsed(s: string)
    requires SpacesAreBlanks(s) && NoAdjacentSpaces(s)
    ensures CollapseSpaces(s) == s
  {
    CollapseFromKeepsCollapsed(s, 0);
  }

  lemma CollapseIdempotent(s: string)
    ensures CollapseSpaces(CollapseSpaces(s)) == CollapseSpaces(s)
  {
    CollapseKeepsCollapsed(CollapseSpaces(s));
  }

  // ---------------------------------------------------------------------
  // Collapsing piece by piece
  // ---------------------------------------------------------------------

  /**
   * A run of white space that starts inside `a` stops inside `a` when `a`
   * does not end with white space, whatever follows `a`.
   */
  lemma SkipSpacesInPrefix(a: string, c: string, k: nat)
    requires k < |a| && !TrailingSpace(a)
    ensures SkipSpaces(a + c, k) == SkipSpaces(a, k) < |a|
  {
    var s := a + c;
    var j, j' := SkipSpaces(a, k), SkipSpaces(s, k);
    assert !IsJsSpace(a[|a| - 1]);
    assert j < |a|;
    assert s[j] == a[j];
    assert j' < |a| ==> s[j'] == a[j'];
  }

  /** Skipping white space in `q` is skipping it in `p + q`, shifted by `|p|`. */
  lemma SkipSpacesInSuffix(p: string, q: string, k: nat)
    requires k <= |q|
    ensures SkipSpaces(p + q, |p| + k) == |p| + SkipSpaces(q, k)
  {
    var s := p + q;
    assert forall m :: 0 <= m < |q| ==> s[|p| + m] == q[m];
  }

  /** A run that fills `w` stops where `b` starts, when `b` does not start with white space. */
  lemma SkipSpacesOverRun(w: string, b: string, k: nat)
    requires k <= |w| && AllSpaces(w) && !LeadingSpace(b)
    ensures SkipSpaces(w + b, k) == |w|
  {
    var s := w + b;
    assert forall m :: 0 <= m < |w| ==> s[m] == w[m];
    assert forall m :: 0 <= m < |b| ==> s[|w| + m] == b[m];
  }

  /** Collapsing a string that does not end with white space can stop at its end. */
  lemma {:induction false} CollapseFromPrefix(a: string, c: string, i: nat)
    requires i <= |a| && !TrailingSpace(a)
    ensures CollapseFrom(a + c, i) == CollapseFrom(a, i) + CollapseFrom(a + c, |a|)
    decreases |a| - i
  {
    if i < |a| {
      assert (a + c)[i] == a[i];
      if IsJsSpace(a[i]) {
        SkipSpacesInPrefix(a, c, i + 1);
        CollapseFromPrefix(a, c, SkipSpaces(a, i + 1));
      } else {
        CollapseFromPrefix(a, c, i + 1);
      }
    }
  }

  /** Collapsing `p + q` from inside `q` is collapsing `q` alone. */
  lemma {:induction false} CollapseFromSuffix(p: string, q: string, i: nat)
    requires i <= |q|
    ensures CollapseFrom(p + q, |p| + i) == CollapseFrom(q, i)
    decreases |q| - i
  {
    var s := p + q;
    if i < |q| {
      assert s[|p| + i] == q[i];
      if IsJsSpace(q[i]) {
        var j := SkipSpaces(q, i + 1);
        SkipSpacesInSuffix(p, q, i + 1);
        assert CollapseFrom(s, |p| + i) == " " + CollapseFrom(s, |p| + j);
        CollapseFromSuffix(p, q, j);
      } else {
        assert CollapseFrom(s, |p| + i) == [q[i]] + CollapseFrom(s, |p| + (i + 1));
        CollapseFromSuffix(p, q, i + 1);
      }
    }
  }

  /**
   * Each maximal run of white space becomes exactly one space: a non-empty
   * run `w` between a string that does not end with white space and one
   * that does not start with it collapses to `" "`, and both sides collapse
   * on their own.
   */
  lemma CollapseRun(a: string, w: string, b: string)
    requires |w| > 0 && AllSpaces(w)
    requires !TrailingSpace(a) && !LeadingSpace(b)
    ensures CollapseSpaces(a + w + b) == CollapseSpaces(a) + " " + CollapseSpaces(b)
  {
    var s := a + (w + b);
    assert a + w + b == s;
    CollapseFromPrefix(a, w + b, 0);
    CollapseFromSuffix(a, w + b, 0);
    assert (w + b)[0] == w[0];
    SkipSpacesOverRun(w, b, 1);
    CollapseFromSuffix(w, b, 0);
  }

  /**
   * An occurrence that starts and ends with a character other than white
   * space survives `trim`.
   */
  lemma OccurrenceSurvivesTrim(s: string, sub: string, i: int)
    requires OccursAt(s, sub, i) && |sub| > 0
    requires !IsJsSpace(sub[0]) && !IsJsSpace(sub[|sub| - 1])
    ensures Includes(Trim(s), sub)
  {
    var r := Trim(s);
    var a := |s| - |TrimStart(s)|;
    forall m | 0 <= m < a
      ensures IsJsSpace(s[m])
    {
      assert s[..a][m] == s[m];
    }
    forall m | a + |r| <= m < |s|
      ensures IsJsSpace(s[m])
    {
      assert s[a + |r|..][m - a - |r|] == s[m];
    }
    assert s[i] == sub[0];
    assert s[i + |sub| - 1] == sub[|sub| - 1];
    assert !IsJsSpace(s[i]) && !IsJsSpace(s[i + |sub| - 1]);
    assert a <= i && i + |sub| <= a + |r|;
    forall m | 0 <= m < |sub|
      ensures r[i - a + m] == sub[m]
    {
      assert s[i..i + |sub|][m] == s[i + m];
      assert s[a..a + |r|][i - a + m] == s[i + m];
    }
    assert r[i - a..i - a + |sub|] == sub;
    assert OccursAt(r, sub, i - a);
  }

  /** A string without white space is normalised. */
  lemma NoWhiteSpaceIsNormalised(s: string)
    requires forall c :: c in s ==> !IsJsSpace(c)
    ensures Normalised(s)
  {
    assert forall i :: 0 <= i < |s| ==> s[i] in s;
  }

  /** A normalised string in front is kept as it is by collapsing, and the rest collapses on its own. */
  lemma CollapseNormalisedPrefix(a: string, t: string)
    requires Normalised(a)
    ensures CollapseSpaces(a + t) == a + CollapseSpaces(t)
  {
    CollapseFromPrefix(a, t, 0);
    CollapseFromSuffix(a, t, 0);
    CollapseKeepsCollapsed(a);
  }

  /**
   * Appending a non-empty normalised string to one without leading white
   * space, blanks only and no run of two keeps the whole normalised.
   */
  lemma ConcatNormalised(a: string, b: string)
    requires !LeadingSpace(a) && SpacesAreBlanks(a) && NoAdjacentSpaces(a)
    requires Normalised(b) && |b| > 0
    ensures Normalised(a + b)
  {
    var s := a + b;
    assert forall m :: 0 <= m < |a| ==> s[m] == a[m];
    assert forall m :: 0 <= m < |b| ==> s[|a| + m] == b[m];
  }

  /** A normalised non-empty string followed by one space starts without white space and has no run of two. */
  lemma AppendBlank(a: string)
    requires Normalised(a) && |a| > 0
    ensures !LeadingSpace(a + " ") && SpacesAreBlanks(a + " ") && NoAdjacentSpaces(a + " ")
  {
    var s := a + " ";
    assert forall m :: 0 <= m < |a| ==> s[m] == a[m];
    assert s[|a|] == ' ';
  }
}
