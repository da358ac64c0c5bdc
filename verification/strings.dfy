/**
 * Occurrences of a pattern inside a string, and the facts that let a search
 * over a concatenation be split into searches over its pieces.
 */
module Strings {

  /** `t` occurs in `s` starting at index `i` (ordinal, character by character). */
  predicate OccursAt(s: string, t: string, i: nat)
  {
    i + |t| <= |s| && s[i..i + |t|] == t
  }

  predicate Contains(s: string, t: string)
  {
    exists i: nat | i <= |s| :: OccursAt(s, t, i)
  }

  /** Number of positions at which `t` starts in `s`. */
  function Count(s: string, t: string): nat
    decreases |s|
  {
    if |s| == 0 then 0
    else (if OccursAt(s, t, 0) then 1 else 0) + Count(s[1..], t)
  }

  /** The concatenation of `parts`, in order. */
  function Concat(parts: seq<string>): string
  {
    if |parts| == 0 then "" else parts[0] + Concat(parts[1..])
  }

  /**
   * Nowhere in `s` is the character `a` directly followed by `b`. (Two bound
   * indices rather than `s[i]` and `s[i + 1]`, so that an instance does not
   * create the term that triggers the next one.)
   */
  predicate NoPair(s: string, a: char, b: char)
  {
    forall i, j | 0 <= i < |s| && 0 <= j < |s| && j == i + 1 :: !(s[i] == a && s[j] == b)
  }

  /** `s` holds no `a` followed by `b`, and does not end in an `a` that a
      following piece could complete. */
  predicate ChunkOk(s: string, a: char, b: char)
  {
    NoPair(s, a, b) && (|s| == 0 || s[|s| - 1] != a)
  }

  /** No occurrence of `t` in `x + y` starts inside `x` and ends inside `y`. */
  predicate NoStraddle(x: string, y: string, t: string)
  {
    forall i | 0 <= i < |x| && |x| < i + |t| :: !OccursAt(x + y, t, i)
  }

  /** A piece whose end no occurrence of `t` can run across. */
  predicate EndSafe(x: string, t: string)
  {
    || |x| == 0
    || (0 < |t| && x[|x| - 1] !in t[..|t| - 1])
    || (2 <= |t| && ChunkOk(x, t[0], t[1]))
  }

  /** A piece whose start no occurrence of `t` can run into. */
  predicate StartSafe(y: string, t: string)
  {
    0 < |y| && 0 < |t| && y[0] !in t[1..]
  }

  /** Consecutive pieces are separated by boundaries that no occurrence of `t` crosses. */
  predicate Segmented(parts: seq<string>, t: string)
  {
    forall k | 0 <= k < |parts| - 1 :: EndSafe(parts[k], t) || StartSafe(parts[k + 1], t)
  }

  /** Sum of the counts of `t` in the pieces. */
  function CountEach(parts: seq<string>, t: string): nat
  {
    if |parts| == 0 then 0 else Count(parts[0], t) + CountEach(parts[1..], t)
  }

  lemma OccursAtDrop(s: string, t: string, k: nat, i: nat)
    requires k <= |s|
    ensures OccursAt(s[k..], t, i) <==> OccursAt(s, t, i + k)
  {
    if i + k + |t| <= |s| {
      assert s[k..][i..i + |t|] == s[i + k..i + k + |t|];
    }
  }

  lemma OccursAtPrefix(x: string, y: string, t: string, i: nat)
    requires i + |t| <= |x|
    ensures OccursAt(x + y, t, i) <==> OccursAt(x, t, i)
  {
    assert (x + y)[i..i + |t|] == x[i..i + |t|];
  }

  /** A string shorter than the pattern has no occurrence of it. */
  lemma CountShort(s: string, t: string)
    requires |s| < |t|
    ensures Count(s, t) == 0
  {
  }

  lemma {:induction false} ContainsIffCount(s: string, t: string)
    requires 0 < |t|
    ensures Contains(s, t) <==> Count(s, t) > 0
    decreases |s|
  {
    if |s| != 0 {
      ContainsIffCount(s[1..], t);
      if Contains(s, t) && !OccursAt(s, t, 0) {
        var i: nat :| i <= |s| && OccursAt(s, t, i);
        OccursAtDrop(s, t, 1, i - 1);
        assert Contains(s[1..], t);
      }
      if Contains(s[1..], t) {
        var i: nat :| i <= |s[1..]| && OccursAt(s[1..], t, i);
        OccursAtDrop(s, t, 1, i);
        assert OccursAt(s, t, i + 1);
      }
      if OccursAt(s, t, 0) {
        assert Contains(s, t);
      }
    }
  }

  /** Counting splits at a boundary that no occurrence crosses. */
  lemma {:induction false} CountAppend(x: string, y: string, t: string)
    requires NoStraddle(x, y, t)
    ensures Count(x + y, t) == Count(x, t) + Count(y, t)
    decreases |x|
  {
    if |x| == 0 {
      assert x + y == y;
    } else {
      assert (x + y)[1..] == x[1..] + y;
      forall i | 0 <= i < |x[1..]| && |x[1..]| < i + |t|
        ensures !OccursAt(x[1..] + y, t, i)
      {
        OccursAtDrop(x + y, t, 1, i);
      }
      CountAppend(x[1..], y, t);
      if |t| <= |x| {
        OccursAtPrefix(x, y, t, 0);
      } else {
        assert !OccursAt(x + y, t, 0);
      }
    }
  }

  /** The piece-local conditions rule out an occurrence across the boundary. */
  lemma SafeJunction(x: string, y: string, t: string)
    requires EndSafe(x, t) || StartSafe(y, t)
    ensures NoStraddle(x, y, t)
  {
    var s := x + y;
    forall i | 0 <= i < |x| && |x| < i + |t|
      ensures !OccursAt(s, t, i)
    {
      if i + |t| <= |s| {
        var w := s[i..i + |t|];
        if StartSafe(y, t) {
          // the character of the window that sits at y[0]
          var k := |x| - i;
          assert w[k] == y[0] && t[k] == t[1..][k - 1];
        } else if 0 < |t| && x[|x| - 1] !in t[..|t| - 1] {
          // the character of the window that sits at the last one of x
          var k := |x| - 1 - i;
          assert w[k] == x[|x| - 1] && t[k] == t[..|t| - 1][k];
        } else {
          assert w[0] == x[i] && w[1] == s[i + 1];
          if i + 1 < |x| {
            assert s[i + 1] == x[i + 1];
          }
        }
      }
    }
  }

  lemma ConcatStart(parts: seq<string>)
    requires 0 < |parts| && 0 < |parts[0]|
    ensures 0 < |Concat(parts)| && Concat(parts)[0] == parts[0][0]
  {
  }

  /** `parts[0]` and the concatenation of the rest meet at a safe boundary. */
  lemma HeadJunction(parts: seq<string>, t: string)
    requires 0 < |parts| && Segmented(parts, t)
    ensures NoStraddle(parts[0], Concat(parts[1..]), t)
  {
    if |parts| == 1 {
      assert Concat(parts[1..]) == "";
    } else if EndSafe(parts[0], t) {
      SafeJunction(parts[0], Concat(parts[1..]), t);
    } else {
      assert StartSafe(parts[1], t);
      ConcatStart(parts[1..]);
      SafeJunction(parts[0], Concat(parts[1..]), t);
    }
  }

  /** The count in a segmented concatenation is the sum of the counts in its pieces. */
  lemma {:induction false} CountConcat(parts: seq<string>, t: string)
    requires Segmented(parts, t)
    ensures Count(Concat(parts), t) == CountEach(parts, t)
  {
    if |parts| > 0 {
      HeadJunction(parts, t);
      CountAppend(parts[0], Concat(parts[1..]), t);
      assert Segmented(parts[1..], t) by {
        forall k | 0 <= k < |parts[1..]| - 1
          ensures EndSafe(parts[1..][k], t) || StartSafe(parts[1..][k + 1], t)
        {
          assert parts[1..][k] == parts[k + 1] && parts[1..][k + 1] == parts[k + 2];
        }
      }
      CountConcat(parts[1..], t);
    }
  }

  /** Without an `a` followed by `b` there is no occurrence of a pattern that starts `ab`. */
  lemma NoPairNoCount(s: string, t: string)
    requires 2 <= |t| && NoPair(s, t[0], t[1])
    ensures Count(s, t) == 0 && !Contains(s, t)
  {
    forall i: nat | i <= |s|
      ensures !OccursAt(s, t, i)
    {
      if i + |t| <= |s| {
        assert s[i..i + |t|][0] == s[i] && s[i..i + |t|][1] == s[i + 1];
      }
    }
    ContainsIffCount(s, t);
  }

  lemma ChunkOkAppend(x: string, y: string, a: char, b: char)
    requires ChunkOk(x, a, b) && ChunkOk(y, a, b)
    ensures ChunkOk(x + y, a, b)
  {
    var s := x + y;
    forall i, j | 0 <= i < |s| && 0 <= j < |s| && j == i + 1
      ensures !(s[i] == a && s[j] == b)
    {
      if j < |x| {
        assert s[i] == x[i] && s[j] == x[j];
      } else if i == |x| - 1 {
        assert s[i] == x[i];
      } else {
        assert s[i] == y[i - |x|] && s[j] == y[j - |x|];
      }
    }
  }

  lemma {:induction false} ChunkOkConcat(parts: seq<string>, a: char, b: char)
    requires forall k | 0 <= k < |parts| :: ChunkOk(parts[k], a, b)
    ensures ChunkOk(Concat(parts), a, b)
  {
    if |parts| > 0 {
      ChunkOkConcat(parts[1..], a, b);
      ChunkOkAppend(parts[0], Concat(parts[1..]), a, b);
    }
  }

  /** Sequences that agree at every index are equal. */
  lemma SameElements(a: seq<string>, b: seq<string>)
    requires |a| == |b| && forall k | 0 <= k < |a| :: a[k] == b[k]
    ensures a == b
  {
  }

  /** One more copy of `c`. */
  lemma OneMore(a: nat, c: nat)
    ensures a * c + c == (a + 1) * c
  {
  }

  /** Joining two runs of pieces joins their texts. */
  lemma {:induction false} ConcatAppend(x: seq<string>, y: seq<string>)
    ensures Concat(x + y) == Concat(x) + Concat(y)
    decreases |x|
  {
    if |x| == 0 {
      assert x + y == y;
    } else {
      assert (x + y)[1..] == x[1..] + y;
      ConcatAppend(x[1..], y);
    }
  }

  // Fixed-arity forms of the laws above for the five-, six- and eight-piece
  // layouts of the templates: the literal pieces are long, and stating each
  // layout once keeps the solver from unfolding the general recursion there.

  lemma ConcatFive(a: string, b: string, c: string, d: string, e: string)
    ensures Concat([a, b, c, d, e]) == a + b + c + d + e
  {
    assert Concat([e]) == e by { assert e + "" == e; }
    assert Concat([d, e]) == d + e by { assert [d, e][1..] == [e]; }
    assert Concat([c, d, e]) == c + d + e by { assert [c, d, e][1..] == [d, e]; }
    assert Concat([b, c, d, e]) == b + c + d + e by { assert [b, c, d, e][1..] == [c, d, e]; }
    assert [a, b, c, d, e][1..] == [b, c, d, e];
  }

  lemma ConcatSix(a: string, b: string, c: string, d: string, e: string, f: string)
    ensures Concat([a, b, c, d, e, f]) == a + b + c + d + e + f
  {
    assert [a, b, c, d, e, f][1..] == [b, c, d, e, f];
    ConcatFive(b, c, d, e, f);
  }

  lemma ConcatEight(a: string, b: string, c: string, d: string, e: string, f: string, g: string, h: string)
    ensures Concat([a, b, c, d, e, f, g, h]) == a + b + c + d + e + f + g + h
  {
    ConcatFive(d, e, f, g, h);
    assert Concat([c, d, e, f, g, h]) == c + d + e + f + g + h by {
      assert [c, d, e, f, g, h][1..] == [d, e, f, g, h];
    }
    assert Concat([b, c, d, e, f, g, h]) == b + c + d + e + f + g + h by {
      assert [b, c, d, e, f, g, h][1..] == [c, d, e, f, g, h];
    }
    assert [a, b, c, d, e, f, g, h][1..] == [b, c, d, e, f, g, h];
  }

  /** Two strings of the same length: the pattern occurs once if they are equal, else not at all. */
  lemma SameLengthCount(s: string, t: string)
    requires |s| == |t| && 0 < |t|
    ensures Count(s, t) == (if s == t then 1 else 0)
  {
    CountShort(s[1..], t);
    assert s[0..|t|] == s;
  }

  /** A string occurs where it was put between two others. */
  lemma OccursBetween(x: string, y: string, z: string)
    ensures OccursAt(x + y + z, y, |x|)
  {
    assert (x + y + z)[|x|..|x| + |y|] == y;
  }

  lemma CountEachFive(a: string, b: string, c: string, d: string, e: string, t: string)
    ensures CountEach([a, b, c, d, e], t) == Count(a, t) + Count(b, t) + Count(c, t) + Count(d, t) + Count(e, t)
  {
    assert CountEach([e], t) == Count(e, t) by { assert [e][1..] == []; }
    assert CountEach([d, e], t) == Count(d, t) + Count(e, t) by { assert [d, e][1..] == [e]; }
    assert CountEach([c, d, e], t) == Count(c, t) + Count(d, t) + Count(e, t) by {
      assert [c, d, e][1..] == [d, e];
    }
    assert CountEach([b, c, d, e], t) == Count(b, t) + Count(c, t) + Count(d, t) + Count(e, t) by {
      assert [b, c, d, e][1..] == [c, d, e];
    }
    assert [a, b, c, d, e][1..] == [b, c, d, e];
  }

  lemma CountEachSix(a: string, b: string, c: string, d: string, e: string, f: string, t: string)
    ensures CountEach([a, b, c, d, e, f], t)
         == Count(a, t) + Count(b, t) + Count(c, t) + Count(d, t) + Count(e, t) + Count(f, t)
  {
    assert [a, b, c, d, e, f][1..] == [b, c, d, e, f];
    CountEachFive(b, c, d, e, f, t);
  }

  lemma CountEachEight(a: string, b: string, c: string, d: string, e: string, f: string, g: string, h: string, t: string)
    ensures CountEach([a, b, c, d, e, f, g, h], t)
         == Count(a, t) + Count(b, t) + Count(c, t) + Count(d, t) + Count(e, t) + Count(f, t) + Count(g, t) + Count(h, t)
  {
    CountEachFive(d, e, f, g, h, t);
    assert CountEach([c, d, e, f, g, h], t) == Count(c, t) + CountEach([d, e, f, g, h], t) by {
      assert [c, d, e, f, g, h][1..] == [d, e, f, g, h];
    }
    assert CountEach([b, c, d, e, f, g, h], t) == Count(b, t) + CountEach([c, d, e, f, g, h], t) by {
      assert [b, c, d, e, f, g, h][1..] == [c, d, e, f, g, h];
    }
    assert CountEach([a, b, c, d, e, f, g, h], t) == Count(a, t) + CountEach([b, c, d, e, f, g, h], t) by {
      assert [a, b, c, d, e, f, g, h][1..] == [b, c, d, e, f, g, h];
    }
  }

  /** Counting over five pieces whose junctions no occurrence crosses. */
  lemma CountJoinFive(a: string, b: string, c: string, d: string, e: string, t: string)
    requires EndSafe(a, t) || StartSafe(b, t)
    requires EndSafe(b, t) || StartSafe(c, t)
    requires EndSafe(c, t) || StartSafe(d, t)
    requires EndSafe(d, t) || StartSafe(e, t)
    ensures Count(a + b + c + d + e, t) == Count(a, t) + Count(b, t) + Count(c, t) + Count(d, t) + Count(e, t)
  {
    var parts := [a, b, c, d, e];
    assert Segmented(parts, t);
    CountConcat(parts, t);
    CountEachFive(a, b, c, d, e, t);
    ConcatFive(a, b, c, d, e);
  }

  /** Counting over six pieces whose junctions no occurrence crosses. */
  lemma CountJoinSix(a: string, b: string, c: string, d: string, e: string, f: string, t: string)
    requires EndSafe(a, t) || StartSafe(b, t)
    requires EndSafe(b, t) || StartSafe(c, t)
    requires EndSafe(c, t) || StartSafe(d, t)
    requires EndSafe(d, t) || StartSafe(e, t)
    requires EndSafe(e, t) || StartSafe(f, t)
    ensures Count(a + b + c + d + e + f, t)
         == Count(a, t) + Count(b, t) + Count(c, t) + Count(d, t) + Count(e, t) + Count(f, t)
  {
    var parts := [a, b, c, d, e, f];
    assert Segmented(parts, t);
    CountConcat(parts, t);
    CountEachSix(a, b, c, d, e, f, t);
    ConcatSix(a, b, c, d, e, f);
  }

  /** Counting over eight pieces whose junctions no occurrence crosses. */
  lemma CountJoinEight(a: string, b: string, c: string, d: string, e: string, f: string, g: string, h: string, t: string)
    requires EndSafe(a, t) || StartSafe(b, t)
    requires EndSafe(b, t) || StartSafe(c, t)
    requires EndSafe(c, t) || StartSafe(d, t)
    requires EndSafe(d, t) || StartSafe(e, t)
    requires EndSafe(e, t) || StartSafe(f, t)
    requires EndSafe(f, t) || StartSafe(g, t)
    requires EndSafe(g, t) || StartSafe(h, t)
    ensures Count(a + b + c + d + e + f + g + h, t)
         == Count(a, t) + Count(b, t) + Count(c, t) + Count(d, t) + Count(e, t) + Count(f, t) + Count(g, t) + Count(h, t)
  {
    var parts := [a, b, c, d, e, f, g, h];
    assert Segmented(parts, t);
    CountConcat(parts, t);
    CountEachEight(a, b, c, d, e, f, g, h, t);
    ConcatEight(a, b, c, d, e, f, g, h);
  }

  lemma ChunkOkJoinSix(a: string, b: string, c: string, d: string, e: string, f: string, x: char, y: char)
    requires ChunkOk(a, x, y) && ChunkOk(b, x, y) && ChunkOk(c, x, y)
    requires ChunkOk(d, x, y) && ChunkOk(e, x, y) && ChunkOk(f, x, y)
    ensures ChunkOk(a + b + c + d + e + f, x, y)
  {
    ChunkOkAppend(a, b, x, y);
    ChunkOkAppend(a + b, c, x, y);
    ChunkOkAppend(a + b + c, d, x, y);
    ChunkOkAppend(a + b + c + d, e, x, y);
    ChunkOkAppend(a + b + c + d + e, f, x, y);
  }

  lemma ChunkOkJoinEight(a: string, b: string, c: string, d: string, e: string, f: string, g: string, h: string,
                         x: char, y: char)
    requires ChunkOk(a, x, y) && ChunkOk(b, x, y) && ChunkOk(c, x, y) && ChunkOk(d, x, y)
    requires ChunkOk(e, x, y) && ChunkOk(f, x, y) && ChunkOk(g, x, y) && ChunkOk(h, x, y)
    ensures ChunkOk(a + b + c + d + e + f + g + h, x, y)
  {
    ChunkOkJoinSix(a, b, c, d, e, f, x, y);
    ChunkOkAppend(a + b + c + d + e + f, g, x, y);
    ChunkOkAppend(a + b + c + d + e + f + g, h, x, y);
  }

  /** A string without `a` holds no `a` followed by anything. */
  lemma WithoutChunkOk(s: string, a: char, b: char)
    requires a !in s
    ensures ChunkOk(s, a, b)
  {
  }

  /** No proper suffix of `t` is also a prefix of it, so two occurrences of `t` never overlap. */
  predicate SelfDisjoint(t: string)
  {
    forall k | 0 < k < |t| :: t[k..] != t[..|t| - k]
  }

  /** A piece whose first and last characters are not in `t`: no occurrence runs into it or out of it. */
  predicate Fenced(b: string, t: string)
  {
    0 < |b| && b[0] !in t && b[|b| - 1] !in t
  }

  lemma FencedSafe(b: string, t: string)
    requires 0 < |t| && Fenced(b, t)
    ensures EndSafe(b, t) && StartSafe(b, t)
  {
    assert forall c | c in t[..|t| - 1] :: c in t;
    assert forall c | c in t[1..] :: c in t;
  }

  /** An occurrence of a self-disjoint pattern is not overlapped by the next one. */
  lemma SelfDisjointNoStraddle(t: string, rest: string)
    requires SelfDisjoint(t)
    ensures NoStraddle(t, rest, t)
  {
    var s := t + rest;
    forall i | 0 <= i < |t| && |t| < i + |t|
      ensures !OccursAt(s, t, i)
    {
      if i + |t| <= |s| {
        var w := s[i..i + |t|];
        assert w[..|t| - i] == t[i..];
        assert t[i..] != t[..|t| - i];
      }
    }
  }

  /** A string that starts with a self-disjoint pattern holds it once more than its rest. */
  lemma CountOfPattern(t: string, rest: string)
    requires 0 < |t| && SelfDisjoint(t)
    ensures Count(t + rest, t) == 1 + Count(rest, t)
  {
    SelfDisjointNoStraddle(t, rest);
    CountAppend(t, rest, t);
    CountShort(t[1..], t);
    assert t[0..|t|] == t;
  }
}
