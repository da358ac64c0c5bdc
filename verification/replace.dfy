/**
 * The .NET `string.Replace(oldValue, newValue)` overload the handler uses:
 * ordinal comparison, every non-overlapping occurrence replaced, scanning
 * left to right, and the inserted text never scanned again.
 */
module StringReplace {
  import opened Wrappers
  import opened Strings

  /**
   * Replaces every occurrence of `oldValue` in `s` by `newValue`.
   * .NET rejects an empty `oldValue` with an ArgumentException, hence the
   * precondition; every call in the handler passes a fixed placeholder.
   */
  function Replace(s: string, oldValue: string, newValue: string): (r: string)
    requires 0 < |oldValue|
    ensures |newValue| == |oldValue| ==> |r| == |s|
    decreases |s|
  {
    if |s| < |oldValue| then s
    else if OccursAt(s, oldValue, 0) then
      newValue + Replace(s[|oldValue|..], oldValue, newValue)
    else [s[0]] + Replace(s[1..], oldValue, newValue)
  }

  /** A string without an occurrence is returned unchanged. */
  lemma {:induction false} ReplaceAbsent(s: string, t: string, b: string)
    requires 0 < |t| && !Contains(s, t)
    ensures Replace(s, t, b) == s
    decreases |s|
  {
    if |t| <= |s| {
      assert !OccursAt(s, t, 0);
      NotContainsTail(s, t);
      ReplaceAbsent(s[1..], t, b);
      assert [s[0]] + s[1..] == s;
    }
  }

  /**
   * `string.Replace` with a possibly-null `newValue`: null acts as `""`, so
   * the leftmost occurrences are removed and the text never grows; a value
   * equal to the placeholder leaves the text unchanged.
   */
  function ReplaceNullable(s: string, oldValue: string, newValue: Option<string>): (r: string)
    requires 0 < |oldValue|
    ensures newValue.None? ==> r == Join(Split(s, oldValue), "") && |r| <= |s|
    ensures newValue.Some? ==> r == Join(Split(s, oldValue), newValue.value)
    ensures newValue == Some(oldValue) ==> r == s
  {
    ReplaceIsJoinOfSplit(s, oldValue, newValue.GetOr(""));
    ReplaceEmptyShrinks(s, oldValue);
    ReplaceSelf(s, oldValue);
    Replace(s, oldValue, newValue.GetOr(""))
  }

  /** Removing the occurrences never lengthens the text. */
  lemma {:induction false} ReplaceEmptyShrinks(s: string, t: string)
    requires 0 < |t|
    ensures |Replace(s, t, "")| <= |s|
    decreases |s|
  {
    if |t| <= |s| {
      if OccursAt(s, t, 0) {
        ReplaceEmptyShrinks(s[|t|..], t);
      } else {
        ReplaceEmptyShrinks(s[1..], t);
      }
    }
  }

  lemma NotContainsTail(s: string, t: string)
    requires 0 < |s|
    ensures !Contains(s, t) ==> !Contains(s[1..], t)
  {
    if Contains(s[1..], t) {
      var i: nat :| i <= |s[1..]| && OccursAt(s[1..], t, i);
      OccursAtDrop(s, t, 1, i);
      assert OccursAt(s, t, i + 1);
    }
  }

  /** `parts[0] + sep + parts[1] + ... + sep + parts[n-1]`. */
  function Join(parts: seq<string>, sep: string): string
  {
    if |parts| == 0 then ""
    else if |parts| == 1 then parts[0]
    else parts[0] + sep + Join(parts[1..], sep)
  }

  /** No occurrence of `t` starts in `s` before index `n`. */
  predicate NoneBefore(s: string, t: string, n: nat)
  {
    forall i | 0 <= i < n :: !OccursAt(s, t, i)
  }

  /**
   * `parts` is how a left-to-right scan for `t` cuts `Join(parts, t)`: each
   * separator is the first occurrence of `t` after the previous one ends, and
   * the text after the last separator has none.
   */
  predicate LeftmostSplit(parts: seq<string>, t: string)
  {
    && 0 < |parts|
    && (forall k | 0 <= k < |parts| - 1 :: NoneBefore(parts[k] + t, t, |parts[k]|))
    && !Contains(parts[|parts| - 1], t)
  }

  /** The pieces between the leftmost non-overlapping occurrences of `t` in `s`. */
  function Split(s: string, t: string): (parts: seq<string>)
    requires 0 < |t|
    ensures 0 < |parts|
    decreases |s|
  {
    if |s| < |t| then [s]
    else if OccursAt(s, t, 0) then [""] + Split(s[|t|..], t)
    else
      var rest := Split(s[1..], t);
      [[s[0]] + rest[0]] + rest[1..]
  }

  /** Every string has a leftmost decomposition: the one `Split` computes. */
  lemma {:induction false} SplitIsLeftmost(s: string, t: string)
    requires 0 < |t|
    ensures LeftmostSplit(Split(s, t), t)
    ensures Join(Split(s, t), t) == s
    decreases |s|
  {
    if |s| < |t| {
      assert !Contains(s, t);
    } else if OccursAt(s, t, 0) {
      SplitIsLeftmost(s[|t|..], t);
      SplitAtMatch(s, t);
    } else {
      SplitIsLeftmost(s[1..], t);
      if |Split(s[1..], t)| == 1 {
        SplitLastPiece(s, t);
      } else {
        SplitExtendPiece(s, t);
      }
    }
  }

  /** Step of `SplitIsLeftmost` when `s` starts with `t`. */
  lemma SplitAtMatch(s: string, t: string)
    requires 0 < |t| <= |s| && OccursAt(s, t, 0)
    requires LeftmostSplit(Split(s[|t|..], t), t)
    requires Join(Split(s[|t|..], t), t) == s[|t|..]
    ensures LeftmostSplit(Split(s, t), t)
    ensures Join(Split(s, t), t) == s
  {
    var rest := Split(s[|t|..], t);
    assert Split(s, t) == [""] + rest;
    JoinAfterEmpty(rest, t);
    assert s == t + s[|t|..];
    EmptyPieceLeftmost(rest, t);
  }

  lemma JoinAfterEmpty(rest: seq<string>, t: string)
    requires 0 < |rest|
    ensures Join([""] + rest, t) == t + Join(rest, t)
  {
    assert ([""] + rest)[1..] == rest;
  }

  lemma EmptyPieceLeftmost(rest: seq<string>, t: string)
    requires 0 < |t| && LeftmostSplit(rest, t)
    ensures LeftmostSplit([""] + rest, t)
  {
    var parts := [""] + rest;
    forall k | 0 <= k < |parts| - 1
      ensures NoneBefore(parts[k] + t, t, |parts[k]|)
    {
      if k > 0 {
        assert parts[k] == rest[k - 1];
      }
    }
  }

  /** Step of `SplitIsLeftmost` when `s` does not start with `t` and the rest holds no `t`. */
  lemma SplitLastPiece(s: string, t: string)
    requires 0 < |t| <= |s| && !OccursAt(s, t, 0)
    requires LeftmostSplit(Split(s[1..], t), t)
    requires Join(Split(s[1..], t), t) == s[1..]
    requires |Split(s[1..], t)| == 1
    ensures LeftmostSplit(Split(s, t), t)
    ensures Join(Split(s, t), t) == s
  {
    var rest := Split(s[1..], t);
    assert rest[0] == s[1..];
    assert [s[0]] + s[1..] == s;
    assert Split(s, t) == [[s[0]] + rest[0]];
    forall i: nat | i <= |s|
      ensures !OccursAt(s, t, i)
    {
      if 0 < i {
        OccursAtDrop(s, t, 1, i - 1);
      }
    }
  }

  /** Step of `SplitIsLeftmost` when `s` does not start with `t` and the rest holds one. */
  lemma SplitExtendPiece(s: string, t: string)
    requires 0 < |t| <= |s| && !OccursAt(s, t, 0)
    requires LeftmostSplit(Split(s[1..], t), t)
    requires Join(Split(s[1..], t), t) == s[1..]
    requires 1 < |Split(s[1..], t)|
    ensures LeftmostSplit(Split(s, t), t)
    ensures Join(Split(s, t), t) == s
  {
    var parts := Split(s, t);
    var rest := Split(s[1..], t);
    assert parts == [[s[0]] + rest[0]] + rest[1..];
    ExtendPieceJoin(s, t, parts, rest);
    ExtendedPieceLeftmost(s, t, rest[0], Join(rest[1..], t));
    forall k | 0 <= k < |parts| - 1
      ensures NoneBefore(parts[k] + t, t, |parts[k]|)
    {
      if k != 0 {
        assert parts[k] == rest[k];
      }
    }
  }

  lemma JoinCons(parts: seq<string>, sep: string)
    requires 1 < |parts|
    ensures Join(parts, sep) == parts[0] + sep + Join(parts[1..], sep)
  {
  }

  lemma ExtendPieceJoin(s: string, t: string, parts: seq<string>, rest: seq<string>)
    requires 0 < |s| && 1 < |rest| && Join(rest, t) == s[1..]
    requires parts == [[s[0]] + rest[0]] + rest[1..]
    ensures Join(parts, t) == s
    ensures s[1..] == rest[0] + t + Join(rest[1..], t)
  {
    JoinCons(rest, t);
    JoinCons(parts, t);
    assert parts[1..] == rest[1..];
    PrependHead(s, rest[0] + t + Join(rest[1..], t));
  }

  lemma PrependHead(s: string, w: string)
    requires 0 < |s| && s[1..] == w
    ensures [s[0]] + w == s
  {
  }

  /** Prefixing a character that does not start an occurrence keeps a piece leftmost. */
  lemma ExtendedPieceLeftmost(s: string, t: string, r0: string, after: string)
    requires 0 < |s| && s[1..] == r0 + t + after && !OccursAt(s, t, 0)
    requires NoneBefore(r0 + t, t, |r0|)
    ensures NoneBefore([s[0]] + r0 + t, t, |r0| + 1)
  {
    var p0t := [s[0]] + r0 + t;
    assert s == p0t + after;
    forall i | 0 <= i < |r0| + 1
      ensures !OccursAt(p0t, t, i)
    {
      if i == 0 {
        OccursAtPrefix(p0t, after, t, 0);
      } else {
        assert p0t[1..] == r0 + t;
        OccursAtDrop(p0t, t, 1, i - 1);
      }
    }
  }

  /** Text in which no occurrence starts before `|p|` is copied through unchanged. */
  lemma {:induction false} ReplaceSkip(p: string, w: string, t: string, b: string)
    requires 0 < |t|
    requires NoneBefore(p + w, t, |p|)
    ensures Replace(p + w, t, b) == p + Replace(w, t, b)
    decreases |p|
  {
    var s := p + w;
    if |p| == 0 {
      assert s == w;
    } else {
      assert s[1..] == p[1..] + w;
      forall i | 0 <= i < |p[1..]|
        ensures !OccursAt(p[1..] + w, t, i)
      {
        OccursAtDrop(s, t, 1, i);
      }
      ReplaceSkip(p[1..], w, t, b);
      if |s| < |t| {
        assert Replace(s, t, b) == s;
        assert Replace(w, t, b) == w;
      } else {
        assert !OccursAt(s, t, 0);
        assert Replace(s, t, b) == [s[0]] + Replace(s[1..], t, b);
        assert [p[0]] + p[1..] == p;
      }
    }
  }

  /** The text at a separator is replaced, whatever `b` is (the replacement is not rescanned). */
  lemma ReplaceAtStart(t: string, rest: string, b: string)
    requires 0 < |t|
    ensures Replace(t + rest, t, b) == b + Replace(rest, t, b)
  {
    var s := t + rest;
    assert s[..|t|] == t;
    assert s[|t|..] == rest;
  }

  /**
   * The reference specification of `Replace`: for the leftmost decomposition
   * `s = p0 + t + p1 + ... + t + pn`, the result is `p0 + b + p1 + ... + b + pn`.
   */
  lemma {:induction false} ReplaceJoin(parts: seq<string>, t: string, b: string)
    requires 0 < |t|
    requires LeftmostSplit(parts, t)
    ensures Replace(Join(parts, t), t, b) == Join(parts, b)
  {
    if |parts| > 1 {
      var rest := parts[1..];
      assert LeftmostSplit(rest, t) by {
        forall k | 0 <= k < |rest| - 1
          ensures NoneBefore(rest[k] + t, t, |rest[k]|)
        {
          assert rest[k] == parts[k + 1];
        }
      }
      ReplaceJoin(rest, t, b);
      var p := parts[0];
      var tail := Join(rest, t);
      assert Join(parts, t) == p + (t + tail);
      forall i | 0 <= i < |p|
        ensures !OccursAt(p + (t + tail), t, i)
      {
        assert p + (t + tail) == (p + t) + tail;
        OccursAtPrefix(p + t, tail, t, i);
      }
      ReplaceSkip(p, t + tail, t, b);
      ReplaceAtStart(t, tail, b);
    } else {
      ReplaceAbsent(parts[0], t, b);
    }
  }

  /** `Replace` is `Join` over the leftmost decomposition, with `b` as separator. */
  lemma {:induction false} ReplaceIsJoinOfSplit(s: string, t: string, b: string)
    requires 0 < |t|
    ensures Replace(s, t, b) == Join(Split(s, t), b)
  {
    SplitIsLeftmost(s, t);
    ReplaceJoin(Split(s, t), t, b);
  }

  /** Replacing a pattern by itself changes nothing. */
  lemma {:induction false} ReplaceSelf(s: string, t: string)
    requires 0 < |t|
    ensures Replace(s, t, t) == s
  {
    ReplaceIsJoinOfSplit(s, t, t);
    SplitIsLeftmost(s, t);
  }

  /** The whole placeholder is replaced by the value. */
  lemma ReplaceWhole(t: string, b: string)
    requires 0 < |t|
    ensures Replace(t, t, b) == b
  {
    ReplaceAtStart(t, "", b);
    assert t + "" == t;
  }

  /** `{{Na{{Name}}me}}` has one occurrence of `{{Name}}`, after `{{Na`. */
  lemma CloseUpSplit()
    ensures LeftmostSplit(["{{Na", "me}}"], "{{Name}}")
    ensures Join(["{{Na", "me}}"], "{{Name}}") == "{{Na{{Name}}me}}"
  {
    var t := "{{Name}}";
    var w := "{{Na" + t;
    assert w[4] == '{';
    assert w[1..9][1] != t[1];
    assert w[2..10][0] != t[0];
    assert w[3..11][0] != t[0];
    assert !OccursAt(w, t, 0) by { assert w[0..8][4] != t[4]; }
    assert NoneBefore(w, t, 4);
    assert !Contains("me}}", t);
  }

  /**
   * A string that holds no placeholder can turn into one: the text around a
   * removed occurrence closes up. So "the value holds no placeholder" alone
   * does not make the result free of it.
   */
  lemma ReplaceCanCreateToken()
    ensures Replace("{{Na{{Name}}me}}", "{{Name}}", "") == "{{Name}}"
  {
    CloseUpSplit();
    ReplaceJoin(["{{Na", "me}}"], "{{Name}}", "");
    assert Join(["{{Na", "me}}"], "") == "{{Name}}";
  }

  /** Dropping a prefix of the left side keeps the junction free of straddling occurrences. */
  lemma NoStraddleDrop(x: string, y: string, t: string, k: nat)
    requires k <= |x| && NoStraddle(x, y, t)
    ensures NoStraddle(x[k..], y, t)
  {
    var s := x + y;
    assert s[k..] == x[k..] + y;
    forall i | 0 <= i < |x[k..]| && |x[k..]| < i + |t|
      ensures !OccursAt(x[k..] + y, t, i)
    {
      OccursAtDrop(s, t, k, i);
    }
  }

  /** Replacement splits at a boundary that no occurrence crosses. */
  lemma {:induction false} ReplaceAppend(x: string, y: string, t: string, b: string)
    requires 0 < |t|
    requires NoStraddle(x, y, t)
    ensures Replace(x + y, t, b) == Replace(x, t, b) + Replace(y, t, b)
    decreases |x|
  {
    var s := x + y;
    if |x| == 0 {
      assert s == y;
    } else if |s| < |t| {
    } else if OccursAt(s, t, 0) {
      assert |t| <= |x|;
      OccursAtPrefix(x, y, t, 0);
      NoStraddleDrop(x, y, t, |t|);
      ReplaceAppend(x[|t|..], y, t, b);
      assert s[|t|..] == x[|t|..] + y;
    } else {
      NoStraddleDrop(x, y, t, 1);
      ReplaceAppend(x[1..], y, t, b);
      assert s[1..] == x[1..] + y;
      if |t| <= |x| {
        OccursAtPrefix(x, y, t, 0);
      } else {
        assert Replace(x[1..], t, b) == x[1..];
      }
    }
  }

  /** `Replace` applied to each piece. */
  function ReplaceEach(parts: seq<string>, t: string, b: string): (r: seq<string>)
    requires 0 < |t|
    ensures |r| == |parts|
    ensures forall k | 0 <= k < |parts| :: r[k] == Replace(parts[k], t, b)
  {
    if |parts| == 0 then [] else [Replace(parts[0], t, b)] + ReplaceEach(parts[1..], t, b)
  }

  /** Over a segmented concatenation, replacement acts piece by piece. */
  lemma {:induction false} ReplaceConcat(parts: seq<string>, t: string, b: string)
    requires 0 < |t|
    requires Segmented(parts, t)
    ensures Replace(Concat(parts), t, b) == Concat(ReplaceEach(parts, t, b))
  {
    if |parts| > 0 {
      HeadJunction(parts, t);
      ReplaceAppend(parts[0], Concat(parts[1..]), t, b);
      assert Segmented(parts[1..], t) by {
        forall k | 0 <= k < |parts[1..]| - 1
          ensures EndSafe(parts[1..][k], t) || StartSafe(parts[1..][k + 1], t)
        {
          assert parts[1..][k] == parts[k + 1] && parts[1..][k + 1] == parts[k + 2];
        }
      }
      ReplaceConcat(parts[1..], t, b);
      assert ReplaceEach(parts, t, b)[1..] == ReplaceEach(parts[1..], t, b);
    }
  }

  /**
   * When the new value starts with a character outside `t`, a prefix of the
   * result made only of characters of `t` was copied from `s` unchanged.
   */
  lemma {:induction false} ReplaceWindow(s: string, t: string, b: string, m: nat)
    requires 0 < |t| && 0 < |b| && b[0] !in t
    requires m <= |Replace(s, t, b)|
    requires forall j | 0 <= j < m :: Replace(s, t, b)[j] in t
    ensures m <= |s| && Replace(s, t, b)[..m] == s[..m]
    decreases |s|
  {
    var r := Replace(s, t, b);
    if |s| < |t| {
    } else if OccursAt(s, t, 0) {
      // the result starts with `b`, whose first character is not in `t`
      assert 0 < |r| && r[0] == b[0];
    } else if 0 < m {
      var r' := Replace(s[1..], t, b);
      assert r == [s[0]] + r';
      forall j | 0 <= j < m - 1
        ensures r'[j] in t
      {
        assert r'[j] == r[j + 1];
      }
      ReplaceWindow(s[1..], t, b, m - 1);
      assert r[..m] == [s[0]] + r'[..m - 1];
      assert s[..m] == [s[0]] + s[1..][..m - 1];
    }
  }

  /** The character before a replaced tail cannot start an occurrence the original did not have. */
  lemma NoOccurrenceBefore(s: string, t: string, b: string)
    requires 0 < |t| <= |s| && 0 < |b| && b[0] !in t && !OccursAt(s, t, 0)
    ensures !OccursAt([s[0]] + Replace(s[1..], t, b), t, 0)
  {
    var r' := Replace(s[1..], t, b);
    var r := [s[0]] + r';
    if |t| <= |r| {
      if forall j | 0 <= j < |t| - 1 :: r'[j] in t {
        ReplaceWindow(s[1..], t, b, |t| - 1);
        assert r[..|t|] == [s[0]] + r'[..|t| - 1];
        assert s[..|t|] == [s[0]] + s[1..][..|t| - 1];
      } else {
        var j :| 0 <= j < |t| - 1 && r'[j] !in t;
        assert r[..|t|][j + 1] == r'[j];
      }
    }
  }

  /**
   * Replacing a pattern that cannot overlap itself by a fenced value: every
   * occurrence left is one of the copies of the value, and the text between
   * them holds none.
   */
  lemma {:induction false} FencedReplaceCount(s: string, t: string, b: string)
    requires 0 < |t| && SelfDisjoint(t) && Fenced(b, t)
    ensures Count(Replace(s, t, b), t) == Count(s, t) * Count(b, t)
    decreases |s|
  {
    if |s| < |t| {
      CountShort(s, t);
    } else if OccursAt(s, t, 0) {
      FencedReplaceCount(s[|t|..], t, b);
      FencedCountAtMatch(s, t, b);
    } else {
      FencedReplaceCount(s[1..], t, b);
      FencedCountPastMiss(s, t, b);
    }
  }

  /** The step of `FencedReplaceCount` at an occurrence: one copy of `b`, then the rest. */
  lemma FencedCountAtMatch(s: string, t: string, b: string)
    requires 0 < |t| <= |s| && SelfDisjoint(t) && Fenced(b, t) && OccursAt(s, t, 0)
    requires Count(Replace(s[|t|..], t, b), t) == Count(s[|t|..], t) * Count(b, t)
    ensures Count(Replace(s, t, b), t) == Count(s, t) * Count(b, t)
  {
    var rest := s[|t|..];
    assert s == t + rest by { assert s[..|t|] == t; }
    CountOfPattern(t, rest);
    FencedSafe(b, t);
    SafeJunction(b, Replace(rest, t, b), t);
    CountAppend(b, Replace(rest, t, b), t);
    OneMore(Count(rest, t), Count(b, t));
  }

  /** The step of `FencedReplaceCount` past a character that starts no occurrence. */
  lemma FencedCountPastMiss(s: string, t: string, b: string)
    requires 0 < |t| <= |s| && Fenced(b, t) && !OccursAt(s, t, 0)
    requires Count(Replace(s[1..], t, b), t) == Count(s[1..], t) * Count(b, t)
    ensures Count(Replace(s, t, b), t) == Count(s, t) * Count(b, t)
  {
    var r' := Replace(s[1..], t, b);
    NoOccurrenceBefore(s, t, b);
    assert ([s[0]] + r')[1..] == r';
  }
}
