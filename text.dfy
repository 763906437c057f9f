/**
 * String operations of Python's `str` that the roast pipeline relies on:
 * substring membership (`p in s`), `lower()`, `replace(old, new)` and
 * `strip()`, each on `seq<char>`, with the facts about `replace` that the
 * content filter needs.
 */
module Text {

  /** `p` is a prefix of `s`. */
  predicate IsPrefix(p: string, s: string) {
    |p| <= |s| && s[..|p|] == p
  }

  /** `p` occurs in `s` starting at index `k`. */
  predicate Occurs(s: string, p: string, k: int) {
    0 <= k && k + |p| <= |s| && s[k..k + |p|] == p
  }

  /** Python's `p in s` on strings. */
  predicate Contains(s: string, p: string): (b: bool)
    ensures b ==> |p| <= |s|
  {
    exists k :: 0 <= k <= |s| - |p| && Occurs(s, p, k)
  }

  lemma ContainsSuffix(s: string, p: string, n: nat)
    requires n <= |s|
    ensures Contains(s[n..], p) ==> Contains(s, p)
  {
    if Contains(s[n..], p) {
      var k :| 0 <= k <= |s[n..]| - |p| && Occurs(s[n..], p, k);
      assert s[n..][k..k + |p|] == s[n + k..n + k + |p|];
      assert Occurs(s, p, n + k);
    }
  }

  /** A text that lacks one of the characters of `w` does not contain `w`. */
  lemma MissingCharNotContained(s: string, w: string, i: nat)
    requires i < |w| && w[i] !in s
    ensures !Contains(s, w)
  {
    if Contains(s, w) {
      var k :| 0 <= k <= |s| - |w| && Occurs(s, w, k);
      CharOfOccurrence(s, w, k, i);
    }
  }

  lemma CharOfOccurrence(s: string, w: string, k: int, i: nat)
    requires Occurs(s, w, k) && i < |w|
    ensures s[k + i] == w[i]
  {
    assert s[k..k + |w|][i] == s[k + i];
  }

  // ---------------------------------------------------------------------------
  // lower()

  /** Case mapping of one character; only ASCII letters are mapped. */
  function LowerChar(c: char): char {
    if 'A' <= c <= 'Z' then (c as int + 32) as char else c
  }

  function Lower(s: string): (r: string)
    ensures |r| == |s|
    ensures forall i :: 0 <= i < |s| ==> r[i] == LowerChar(s[i])
  {
    seq(|s|, i requires 0 <= i < |s| => LowerChar(s[i]))
  }

  /** A word made only of the letters `a` to `z`. */
  predicate IsLowerWord(w: string) {
    forall i :: 0 <= i < |w| ==> 'a' <= w[i] <= 'z'
  }

  /** Lower-casing a lower-case word changes nothing. */
  lemma LowerOfLowerWord(w: string)
    requires IsLowerWord(w)
    ensures Lower(w) == w
  {
  }

  /** Lower-casing cannot destroy an occurrence of an already lower-case word. */
  lemma LowerKeepsLowerWord(s: string, w: string)
    requires IsLowerWord(w)
    ensures Contains(s, w) ==> Contains(Lower(s), w)
  {
    if Contains(s, w) {
      var k :| 0 <= k <= |s| - |w| && Occurs(s, w, k);
      var l := Lower(s);
      forall i | 0 <= i < |w|
        ensures l[k..k + |w|][i] == w[i]
      {
        assert s[k..k + |w|][i] == w[i];
        assert s[k + i] == w[i];
      }
      assert l[k..k + |w|] == w;
      assert Occurs(l, w, k);
    }
  }

  // ---------------------------------------------------------------------------
  // replace(old, new)

  /**
   * Python's `s.replace(pat, rep)` for a non-empty `pat`: scan from the left,
   * replace each occurrence and resume after it, so that occurrences never
   * overlap.
   */
  function ReplaceAll(s: string, pat: string, rep: string): (r: string)
    requires |pat| > 0
    ensures |rep| == |pat| ==> |r| == |s|
    ensures IsPrefix(pat, s) ==> IsPrefix(rep, r)
    decreases |s|
  {
    if |s| < |pat| then s
    else if IsPrefix(pat, s) then rep + ReplaceAll(s[|pat|..], pat, rep)
    else [s[0]] + ReplaceAll(s[1..], pat, rep)
  }

  /** With no occurrence of `pat`, replacing it changes nothing. */
  lemma {:induction false} ReplaceAbsent(s: string, pat: string, rep: string)
    requires |pat| > 0
    requires !Contains(s, pat)
    ensures ReplaceAll(s, pat, rep) == s
    decreases |s|
  {
    if |s| >= |pat| {
      assert !Occurs(s, pat, 0);
      ContainsSuffix(s, pat, 1);
      ReplaceAbsent(s[1..], pat, rep);
      assert s == [s[0]] + s[1..];
    }
  }

  /** Index of the first occurrence of `pat` in `s`, or `|s|` when there is none. */
  function FirstMatch(s: string, pat: string): (i: nat)
    requires |pat| > 0
    ensures i <= |s|
    ensures forall j :: 0 <= j < i ==> !IsPrefix(pat, s[j..])
    ensures i < |s| ==> IsPrefix(pat, s[i..])
    decreases |s|
  {
    if |s| == 0 || IsPrefix(pat, s) then 0
    else
      var i := 1 + FirstMatch(s[1..], pat);
      assert forall j :: 1 <= j <= |s| ==> s[j..] == s[1..][j - 1..];
      i
  }

  /** Up to the first occurrence of `pat`, replacing copies its input. */
  lemma {:induction false} ReplaceUpTo(s: string, pat: string, rep: string, i: nat)
    requires |pat| > 0 && i <= |s|
    requires forall j :: 0 <= j < i ==> !IsPrefix(pat, s[j..])
    ensures ReplaceAll(s, pat, rep) == s[..i] + ReplaceAll(s[i..], pat, rep)
    decreases i
  {
    if i > 0 {
      assert !IsPrefix(pat, s[0..]);
      assert s[0..] == s;
      if |s| < |pat| {
        assert s == s[..i] + s[i..];
      } else {
        var t := s[1..];
        forall j | 0 <= j < i - 1
          ensures !IsPrefix(pat, t[j..])
        {
          assert t[j..] == s[j + 1..];
        }
        ReplaceUpTo(t, pat, rep, i - 1);
        assert t[i - 1..] == s[i..];
        HeadThenTail(s, i - 1);
        assert ReplaceAll(s, pat, rep) == [s[0]] + ReplaceAll(t, pat, rep);
        Associate([s[0]], t[..i - 1], ReplaceAll(s[i..], pat, rep));
      }
    }
  }

  /** A text holding `pat` has its first occurrence before its end. */
  lemma ContainsHasFirstMatch(s: string, pat: string)
    requires |pat| > 0 && Contains(s, pat)
    ensures FirstMatch(s, pat) < |s|
  {
    var k :| 0 <= k <= |s| - |pat| && Occurs(s, pat, k);
    assert s[k..][..|pat|] == s[k..k + |pat|];
    assert IsPrefix(pat, s[k..]);
  }

  /**
   * `replace` copies the text up to the first occurrence of `pat`, writes
   * `rep` in place of that occurrence, and goes on after it.
   */
  lemma ReplaceAtFirstMatch(s: string, pat: string, rep: string)
    requires |pat| > 0 && Contains(s, pat)
    ensures var i := FirstMatch(s, pat);
            && i + |pat| <= |s| && s[i..i + |pat|] == pat
            && ReplaceAll(s, pat, rep) == s[..i] + rep + ReplaceAll(s[i + |pat|..], pat, rep)
  {
    ContainsHasFirstMatch(s, pat);
    var i := FirstMatch(s, pat);
    ReplaceFromFirstMatch(s, pat, rep);
    SliceOfSuffix(s, i, |pat|);
    ReplaceAtStart(s[i..], pat, rep);
    Associate(s[..i], rep, ReplaceAll(s[i + |pat|..], pat, rep));
  }

  lemma Associate(x: string, y: string, z: string)
    ensures x + (y + z) == x + y + z
  {
  }

  lemma ReplaceFromFirstMatch(s: string, pat: string, rep: string)
    requires |pat| > 0
    ensures var i := FirstMatch(s, pat);
            ReplaceAll(s, pat, rep) == s[..i] + ReplaceAll(s[i..], pat, rep)
  {
    ReplaceUpTo(s, pat, rep, FirstMatch(s, pat));
  }

  lemma ReplaceAtStart(u: string, pat: string, rep: string)
    requires |pat| > 0 && IsPrefix(pat, u)
    ensures ReplaceAll(u, pat, rep) == rep + ReplaceAll(u[|pat|..], pat, rep)
  {
  }

  lemma SliceOfSuffix(s: string, i: nat, n: nat)
    requires i + n <= |s|
    ensures s[i..][n..] == s[i + n..] && s[i..][..n] == s[i..i + n]
  {
  }

  /** One of `x`, `y` is a prefix of the other. */
  predicate Agree(x: string, y: string) {
    IsPrefix(x, y) || IsPrefix(y, x)
  }

  /**
   * Writing `rep` into a text cannot create an occurrence of `q`: `q` does not
   * start anywhere inside `rep`, and no proper suffix of `q` starts `rep`.
   */
  predicate NoOverlap(q: string, rep: string) {
    && 0 < |q| <= |rep|
    && (forall k :: 0 <= k < |rep| ==> !Agree(rep[k..], q))
    && (forall j :: 0 < j < |q| ==> !IsPrefix(q[j..], rep))
  }

  /** Two texts that agree also agree character by character. */
  lemma AgreeAt(x: string, y: string, i: nat)
    requires i < |x| && i < |y| && Agree(x, y)
    ensures x[i] == y[i]
  {
    if IsPrefix(x, y) {
      assert y[..|x|][i] == y[i];
    } else {
      assert x[..|y|][i] == x[i];
    }
  }

  /**
   * A word whose first letter is not in `rep`, and that does not hold the
   * first letter of `rep` after its own first position, cannot overlap `rep`.
   */
  lemma NoOverlapByHeads(q: string, rep: string)
    requires 0 < |q| <= |rep|
    requires q[0] !in rep && rep[0] !in q[1..]
    ensures NoOverlap(q, rep)
  {
    forall k | 0 <= k < |rep| ensures !Agree(rep[k..], q) {
      if Agree(rep[k..], q) {
        AgreeAt(rep[k..], q, 0);
      }
    }
    forall j | 0 < j < |q| ensures !IsPrefix(q[j..], rep) {
      if IsPrefix(q[j..], rep) {
        AgreeAt(q[j..], rep, 0);
      }
    }
  }

  /** Text that starts with `rep` holds `q` only where its tail does. */
  lemma NoOccurrenceAfterRep(rep: string, tail: string, q: string)
    requires NoOverlap(q, rep)
    requires !Contains(tail, q)
    ensures !Contains(rep + tail, q)
  {
    var r := rep + tail;
    if Contains(r, q) {
      var k :| 0 <= k <= |r| - |q| && Occurs(r, q, k);
      if k >= |rep| {
        assert r[k..k + |q|] == tail[k - |rep|..k - |rep| + |q|];
        assert Occurs(tail, q, k - |rep|);
      } else {
        OccursInsideRep(rep, tail, q, k);
      }
    }
  }

  /** An occurrence of `q` that starts inside `rep` agrees with the rest of `rep`. */
  lemma OccursInsideRep(rep: string, tail: string, q: string, k: int)
    requires Occurs(rep + tail, q, k) && k < |rep|
    ensures Agree(rep[k..], q)
  {
    var r := rep + tail;
    assert r[k..|rep|] == rep[k..];
    if k + |q| <= |rep| {
      assert rep[k..][..|q|] == r[k..k + |q|];
    } else {
      assert q[..|rep| - k] == r[k..k + |q|][..|rep| - k];
    }
  }

  /** A prefix shorter than `q` followed by `rep` does not start with `q`. */
  lemma NoStraddle(x: string, rep: string, rest: string, q: string)
    requires NoOverlap(q, rep)
    requires 0 < |x| < |q|
    ensures !IsPrefix(q, x + (rep + rest))
  {
    if IsPrefix(q, x + (rep + rest)) {
      StraddleStartsRep(x, rep, rest, q);
    }
  }

  /** If `x + rep + rest` starts with `q`, the part of `q` after `x` starts `rep`. */
  lemma StraddleStartsRep(x: string, rep: string, rest: string, q: string)
    requires IsPrefix(q, x + (rep + rest))
    requires |x| < |q| <= |x| + |rep|
    ensures IsPrefix(q[|x|..], rep)
  {
    var r := x + (rep + rest);
    assert r[|x|..|q|] == rep[..|q| - |x|];
    assert q[|x|..] == r[..|q|][|x|..];
  }

  /**
   * A text that starts with neither `pat` nor `q` does not start with `q`
   * once `pat` is replaced, when `rep` cannot overlap `q`.
   */
  lemma HeadKeepsNoOccurrence(s: string, pat: string, rep: string, q: string)
    requires 0 < |pat| <= |s|
    requires NoOverlap(q, rep)
    requires !IsPrefix(pat, s) && !IsPrefix(q, s)
    ensures !IsPrefix(q, ReplaceAll(s, pat, rep))
  {
    var t := s[1..];
    var i := FirstMatch(t, pat);
    ReplaceUpTo(t, pat, rep, i);
    var b := ReplaceAll(t[i..], pat, rep);
    var a := s[..i + 1];
    assert ReplaceAll(s, pat, rep) == [s[0]] + (t[..i] + b);
    assert [s[0]] + (t[..i] + b) == ([s[0]] + t[..i]) + b;
    HeadThenTail(s, i);
    if i + 1 >= |q| {
      LongHead(a, b, s, q);
    } else if i < |t| {
      var u := t[i..];
      assert b == rep + ReplaceAll(u[|pat|..], pat, rep);
      NoStraddle(a, rep, ReplaceAll(u[|pat|..], pat, rep), q);
    } else {
      assert b == [];
      assert a + b == s;
    }
  }

  lemma HeadThenTail(s: string, i: nat)
    requires i < |s|
    ensures [s[0]] + s[1..][..i] == s[..i + 1]
  {
    assert forall j :: 0 <= j < i + 1 ==> ([s[0]] + s[1..][..i])[j] == s[j];
  }

  /** When the unchanged head already covers `q`'s length, the text starts with `q` only if `s` does. */
  lemma LongHead(a: string, b: string, s: string, q: string)
    requires |q| <= |a| <= |s| && a == s[..|a|]
    requires !IsPrefix(q, s)
    ensures !IsPrefix(q, a + b)
  {
    assert (a + b)[..|q|] == a[..|q|] == s[..|q|];
  }

  /**
   * `replace(pat, rep)` leaves no occurrence of `pat` behind, and it creates
   * no occurrence of another word `q` that the input did not hold, as long as
   * `rep` cannot overlap the word.
   */
  lemma {:induction false} ReplaceLeavesNoOccurrence(s: string, pat: string, rep: string, q: string)
    requires |pat| > 0
    requires NoOverlap(q, rep)
    requires q == pat || !Contains(s, q)
    ensures !Contains(ReplaceAll(s, pat, rep), q)
    decreases |s|
  {
    var r := ReplaceAll(s, pat, rep);
    if |s| < |pat| {
      assert r == s;
    } else if IsPrefix(pat, s) {
      var t := s[|pat|..];
      ContainsSuffix(s, q, |pat|);
      ReplaceLeavesNoOccurrence(t, pat, rep, q);
      NoOccurrenceAfterRep(rep, ReplaceAll(t, pat, rep), q);
    } else {
      var t := s[1..];
      ContainsSuffix(s, q, 1);
      ReplaceLeavesNoOccurrence(t, pat, rep, q);
      var tail := ReplaceAll(t, pat, rep);
      assert r == [s[0]] + tail;
      assert !Occurs(s, q, 0);
      HeadKeepsNoOccurrence(s, pat, rep, q);
      ConsNoOccurrence(s[0], tail, q);
    }
  }

  /** A text that does not start with `q` holds `q` only where its tail does. */
  lemma ConsNoOccurrence(c: char, tail: string, q: string)
    requires !Contains(tail, q) && !IsPrefix(q, [c] + tail)
    ensures !Contains([c] + tail, q)
  {
    var r := [c] + tail;
    if Contains(r, q) {
      var k :| 0 <= k <= |r| - |q| && Occurs(r, q, k);
      if k > 0 {
        assert r[k..k + |q|] == tail[k - 1..k - 1 + |q|];
        assert Occurs(tail, q, k - 1);
      } else {
        assert false;
      }
    }
  }

  // ---------------------------------------------------------------------------
  // strip()

  /** The characters Python's `str.isspace` accepts, which `strip()` removes. */
  predicate IsSpace(c: char): (b: bool)
    ensures c == ' ' || c == '\t' || c == '\n' || c == '\r' ==> b
    ensures 'a' <= c <= 'z' || 'A' <= c <= 'Z' || '0' <= c <= '9' ==> !b
    ensures b ==> c <= '\U{3000}'
  {
    || '\t' <= c <= '\r'
    || '\U{1C}' <= c <= ' '
    || c == '\U{85}' || c == '\U{A0}' || c == '\U{1680}'
    || '\U{2000}' <= c <= '\U{200A}'
    || c == '\U{2028}' || c == '\U{2029}' || c == '\U{202F}'
    || c == '\U{205F}' || c == '\U{3000}'
  }

  /** Drops the leading whitespace of `s`. */
  function TrimStart(s: string): (r: string)
    ensures |r| <= |s| && r == s[|s| - |r|..]
    ensures r == [] || !IsSpace(r[0])
    ensures forall k :: 0 <= k < |s| - |r| ==> IsSpace(s[k])
    decreases |s|
  {
    if |s| > 0 && IsSpace(s[0]) then TrimStart(s[1..]) else s
  }

  /** Drops the trailing whitespace of `s`. */
  function TrimEnd(s: string): (r: string)
    ensures |r| <= |s| && r == s[..|r|]
    ensures r == [] || !IsSpace(r[|r| - 1])
    ensures forall k :: |r| <= k < |s| ==> IsSpace(s[k])
    decreases |s|
  {
    if |s| > 0 && IsSpace(s[|s| - 1]) then TrimEnd(s[..|s| - 1]) else s
  }

  /** `r` is the part of `s` from `a` on, with only whitespace around it. */
  predicate StrippedAt(s: string, r: string, a: int) {
    && 0 <= a <= |s| - |r|
    && r == s[a..a + |r|]
    && (forall k :: 0 <= k < a ==> IsSpace(s[k]))
    && (forall k :: a + |r| <= k < |s| ==> IsSpace(s[k]))
  }

  /** Python's `s.strip()`: `s` without its leading and trailing whitespace. */
  function Strip(s: string): (r: string)
    ensures |r| <= |s|
    ensures r == [] || (!IsSpace(r[0]) && !IsSpace(r[|r| - 1]))
    ensures exists a :: 0 <= a <= |s| - |r| && StrippedAt(s, r, a)
    ensures (s == [] || (!IsSpace(s[0]) && !IsSpace(s[|s| - 1]))) ==> r == s
  {
    var t := TrimStart(s);
    var r := TrimEnd(t);
    TrimmedBothEnds(s, t, r);
    r
  }

  /** Trimming the head and then the tail leaves a slice with only whitespace around it. */
  lemma TrimmedBothEnds(s: string, t: string, r: string)
    requires |t| <= |s| && t == s[|s| - |t|..]
    requires forall k :: 0 <= k < |s| - |t| ==> IsSpace(s[k])
    requires |r| <= |t| && r == t[..|r|]
    requires forall k :: |r| <= k < |t| ==> IsSpace(t[k])
    ensures StrippedAt(s, r, |s| - |t|)
  {
    AfterTrimStart(s, t, r);
    AfterTrimEnd(s, t, r);
  }

  /** Trimming the tail of a suffix leaves a slice of the whole text. */
  lemma AfterTrimStart(s: string, t: string, r: string)
    requires |t| <= |s| && t == s[|s| - |t|..]
    requires |r| <= |t| && r == t[..|r|]
    ensures r == s[|s| - |t|..|s| - |t| + |r|]
  {
  }

  /** Whitespace trimmed off the tail of a suffix is whitespace of the whole text. */
  lemma AfterTrimEnd(s: string, t: string, r: string)
    requires |t| <= |s| && t == s[|s| - |t|..] && |r| <= |t|
    requires forall k :: |r| <= k < |t| ==> IsSpace(t[k])
    ensures forall k :: |s| - |t| + |r| <= k < |s| ==> IsSpace(s[k])
  {
    var a := |s| - |t|;
    forall k | a + |r| <= k < |s|
      ensures IsSpace(s[k])
    {
      assert s[k] == t[k - a];
    }
  }
}
